/** The untagged response envelope (crates/protocol/src/response.rs). */
module Response {
  import opened Wrappers
  import opened Sequences
  import opened SpecTypes
  import opened Json
  import opened SpecEncoding

  datatype Item = Item(
    insert: string,
    display: Option<string>,
    desc: Option<string>,
    score: real,
    dangerous: Option<bool>,
    deprecated: Option<bool>)

  datatype ErrorBody = ErrorBody(code: string, message: string)

  datatype Response =
    | ItemsResponse(v: U32, id: I64, items: seq<Item>)
    | ErrorResponse(v: U32, id: I64, error: ErrorBody)
    | SuggestionResponse(v: U32, id: I64, suggestion: Option<string>)

  // ----- leaves

  function EncodeU32(n: U32): Json {
    Num(n)
  }

  function DecodeU32(j: Json): Decoded<U32> {
    if j.Num? && 0 <= j.n < 0x1_0000_0000 then Success(j.n) else Failure(Invalid)
  }

  function EncodeI64(n: I64): Json {
    Num(n)
  }

  function DecodeI64(j: Json): Decoded<I64> {
    if j.Num? && -0x8000_0000_0000_0000 <= j.n < 0x8000_0000_0000_0000 then Success(j.n) else Failure(Invalid)
  }

  function EncodeScore(r: real): Json {
    Real(r)
  }

  /** A float may be written without a fraction. */
  function DecodeScore(j: Json): Decoded<real> {
    match j
    case Real(r) => Success(r)
    case Num(n) => Success(n as real)
    case _ => Failure(Invalid)
  }

  // ----- items

  function ItemSlots(i: Item): seq<Slot> {
    [Slot("insert", Some(EncodeString(i.insert))),
     OptSlot("display", i.display, EncodeString),
     OptSlot("desc", i.desc, EncodeString),
     Slot("score", Some(EncodeScore(i.score))),
     OptSlot("dangerous", i.dangerous, EncodeBool),
     OptSlot("deprecated", i.deprecated, EncodeBool)]
  }

  function EncodeItem(i: Item): Json {
    Obj(Present(ItemSlots(i)))
  }

  function DecodeItem(j: Json): Decoded<Item> {
    if !j.Obj? then Failure(Invalid)
    else
      var insert :- NeedField(j.fields, "insert", DecodeString);
      var display :- OptField(j.fields, "display", DecodeString);
      var desc :- OptField(j.fields, "desc", DecodeString);
      var score :- NeedField(j.fields, "score", DecodeScore);
      var dangerous :- OptField(j.fields, "dangerous", DecodeBool);
      var deprecated :- OptField(j.fields, "deprecated", DecodeBool);
      Success(Item(insert, display, desc, score, dangerous, deprecated))
  }

  lemma {:induction false} ItemRoundTrip(i: Item)
    ensures DecodeItem(EncodeItem(i)) == Success(i)
  {
    hide Present, NeedField, OptField, EncodeString, DecodeString, EncodeBool, DecodeBool;
    LeavesUndone();
    var slots := ItemSlots(i);
    NeedRoundTrip(slots, 0, "insert", i.insert, DecodeString, EncodeString);
    OptRoundTrip(slots, 1, "display", i.display, DecodeString, EncodeString);
    OptRoundTrip(slots, 2, "desc", i.desc, DecodeString, EncodeString);
    NeedRoundTrip(slots, 3, "score", i.score, DecodeScore, EncodeScore);
    OptRoundTrip(slots, 4, "dangerous", i.dangerous, DecodeBool, EncodeBool);
    OptRoundTrip(slots, 5, "deprecated", i.deprecated, DecodeBool, EncodeBool);
  }

  lemma {:induction false} ItemsUndone()
    ensures Undoes(DecodeItem, EncodeItem)
  {
    hide DecodeItem, EncodeItem;
    forall i: Item ensures DecodeItem(EncodeItem(i)) == Success(i) {
      ItemRoundTrip(i);
    }
  }

  function EncodeItems(items: seq<Item>): Json {
    Arr(Map(EncodeItem, items))
  }

  function DecodeItems(j: Json): Decoded<seq<Item>> {
    if j.Arr? then DecodeAll(DecodeItem, j.items) else Failure(Invalid)
  }

  lemma {:induction false} ItemListRoundTrip(items: seq<Item>)
    ensures DecodeItems(EncodeItems(items)) == Success(items)
  {
    ItemsUndone();
    hide DecodeItem, EncodeItem, Undoes;
    DecodeAllMap(DecodeItem, EncodeItem, items);
  }

  function ErrorSlots(e: ErrorBody): seq<Slot> {
    [Slot("code", Some(EncodeString(e.code))), Slot("message", Some(EncodeString(e.message)))]
  }

  function EncodeErrorBody(e: ErrorBody): Json {
    Obj(Present(ErrorSlots(e)))
  }

  function DecodeErrorBody(j: Json): Decoded<ErrorBody> {
    if !j.Obj? then Failure(Invalid)
    else
      var code :- NeedField(j.fields, "code", DecodeString);
      var message :- NeedField(j.fields, "message", DecodeString);
      Success(ErrorBody(code, message))
  }

  lemma {:induction false} ErrorRoundTrip(e: ErrorBody)
    ensures DecodeErrorBody(EncodeErrorBody(e)) == Success(e)
  {
    hide Present, NeedField;
    NeedRoundTrip(ErrorSlots(e), 0, "code", e.code, DecodeString, EncodeString);
    NeedRoundTrip(ErrorSlots(e), 1, "message", e.message, DecodeString, EncodeString);
  }

  // ----- the envelope

  /** A suggestion is always written, as null when there is none. */
  function ResponseSlots(r: Response): seq<Slot> {
    [Slot("v", Some(EncodeU32(r.v))),
     Slot("id", Some(EncodeI64(r.id))),
     match r
     case ItemsResponse(_, _, items) => Slot("items", Some(EncodeItems(items)))
     case ErrorResponse(_, _, error) => Slot("error", Some(EncodeErrorBody(error)))
     case SuggestionResponse(_, _, suggestion) => Slot("suggestion", Some(if suggestion.Some? then Str(suggestion.value) else Null))]
  }

  function EncodeResponse(r: Response): Json {
    Obj(Present(ResponseSlots(r)))
  }

  datatype Variant = ItemsVariant | ErrorVariant | SuggestionVariant

  function VariantOf(r: Response): Variant {
    match r
    case ItemsResponse(_, _, _) => ItemsVariant
    case ErrorResponse(_, _, _) => ErrorVariant
    case SuggestionResponse(_, _, _) => SuggestionVariant
  }

  /** One variant tried on an object. A missing `suggestion` reads as `None`. */
  function DecodeAs(variant: Variant, fields: seq<Field>): Decoded<Response> {
    var v :- NeedField(fields, "v", DecodeU32);
    var id :- NeedField(fields, "id", DecodeI64);
    match variant
    case ItemsVariant =>
      var items :- NeedField(fields, "items", DecodeItems);
      Success(ItemsResponse(v, id, items))
    case ErrorVariant =>
      var error :- NeedField(fields, "error", DecodeErrorBody);
      Success(ErrorResponse(v, id, error))
    case SuggestionVariant =>
      var suggestion :- OptField(fields, "suggestion", DecodeString);
      Success(SuggestionResponse(v, id, suggestion))
  }

  /** Untagged: the first variant, in some order, that decodes. */
  function DecodeInOrder(order: seq<Variant>, j: Json): Decoded<Response> {
    if order == [] || !j.Obj? then Failure(Invalid)
    else
      var r := DecodeAs(order[0], j.fields);
      if r.Success? then r else DecodeInOrder(order[1..], j)
  }

  /** The order of the declaration. */
  const ORDER: seq<Variant> := [ItemsVariant, ErrorVariant, SuggestionVariant]

  function DecodeResponse(j: Json): Decoded<Response> {
    DecodeInOrder(ORDER, j)
  }

  lemma {:induction false} PayloadField(slots: seq<Slot>, key: string)
    requires |slots| == 3 && DistinctKeys(slots) && slots[0].key != key && slots[1].key != key
    ensures Lookup(Present(slots), key) == Success(if slots[2].key == key then slots[2].value else None)
  {
    hide Present, Lookup;
    if slots[2].key == key {
      LookupPresent(slots, 2);
    } else {
      AbsentKey(slots, key);
    }
  }

  lemma {:induction false} EnvelopeFields(r: Response)
    ensures var f := Present(ResponseSlots(r));
            && NeedField(f, "v", DecodeU32) == Success(r.v)
            && NeedField(f, "id", DecodeI64) == Success(r.id)
            && Lookup(f, "items") == Success(if r.ItemsResponse? then Some(EncodeItems(r.items)) else None)
            && Lookup(f, "error") == Success(if r.ErrorResponse? then Some(EncodeErrorBody(r.error)) else None)
            && Lookup(f, "suggestion") ==
               Success(if !r.SuggestionResponse? then None
                       else Some(if r.suggestion.Some? then Str(r.suggestion.value) else Null))
  {
    var slots := ResponseSlots(r);
    assert DistinctKeys(slots);
    hide Present, NeedField, Lookup, DistinctKeys, EncodeItems, EncodeErrorBody;
    NeedRoundTrip(slots, 0, "v", r.v, DecodeU32, EncodeU32);
    NeedRoundTrip(slots, 1, "id", r.id, DecodeI64, EncodeI64);
    PayloadField(slots, "items");
    PayloadField(slots, "error");
    PayloadField(slots, "suggestion");
  }

  /** Each variant on each encoded response: its own reads back; the items and error
      variants refuse the others, and the suggestion variant accepts every one as none. */
  lemma {:induction false} VariantOnResponse(variant: Variant, r: Response)
    ensures DecodeAs(variant, Present(ResponseSlots(r))) ==
            if VariantOf(r) == variant then Success(r)
            else match variant
                 case ItemsVariant => Failure(Missing("items"))
                 case ErrorVariant => Failure(Missing("error"))
                 case SuggestionVariant => Success(SuggestionResponse(r.v, r.id, None))
  {
    EnvelopeFields(r);
    hide Present, Lookup, EncodeItems, DecodeItems, EncodeErrorBody, DecodeErrorBody, ResponseSlots;
    if r.ItemsResponse? {
      ItemListRoundTrip(r.items);
    }
    if r.ErrorResponse? {
      ErrorRoundTrip(r.error);
    }
  }

  predicate IsOrder(order: seq<Variant>) {
    |order| == 3 && order[0] != order[1] && order[0] != order[2] && order[1] != order[2]
  }

  /** Trying three variants in turn. */
  lemma {:induction false} TryThree(order: seq<Variant>, fields: seq<Field>)
    requires |order| == 3
    ensures var a, b, c := DecodeAs(order[0], fields), DecodeAs(order[1], fields), DecodeAs(order[2], fields);
            DecodeInOrder(order, Obj(fields)) ==
            if a.Success? then a else if b.Success? then b else if c.Success? then c else Failure(Invalid)
  {
    hide DecodeAs;
    var rest := order[1..];
    assert rest[0] == order[1] && rest[1..][0] == order[2] && rest[1..][1..] == [];
    assert DecodeInOrder(rest[1..][1..], Obj(fields)).Failure?;
    assert DecodeInOrder(rest[1..], Obj(fields)) ==
           if DecodeAs(order[2], fields).Success? then DecodeAs(order[2], fields) else Failure(Invalid);
  }

  /** What an order makes of an encoded response. */
  lemma {:induction false} InOrderOnResponse(order: seq<Variant>, r: Response)
    requires IsOrder(order)
    ensures DecodeInOrder(order, EncodeResponse(r)) == Success(r) <==>
            order[2] == SuggestionVariant || r == SuggestionResponse(r.v, r.id, None) || VariantOf(r) == order[0]
            || (order[0] != SuggestionVariant && VariantOf(r) == order[1])
  {
    hide DecodeAs, Present, ResponseSlots, DecodeInOrder;
    TryThree(order, Present(ResponseSlots(r)));
    VariantOnResponse(order[0], r);
    VariantOnResponse(order[1], r);
    VariantOnResponse(order[2], r);
  }

  /** Decoding an encoded response gives it back. */
  lemma {:induction false} ResponseRoundTrip(r: Response)
    ensures DecodeResponse(EncodeResponse(r)) == Success(r)
  {
    hide DecodeInOrder, EncodeResponse;
    InOrderOnResponse(ORDER, r);
  }

  ghost predicate RoundTripsIn(order: seq<Variant>) {
    forall r :: DecodeInOrder(order, EncodeResponse(r)) == Success(r)
  }

  /** Of the orders in which the variants could be tried, those work that try the
      suggestion last. */
  lemma {:induction false} RoundTripsIffSuggestionLast(order: seq<Variant>)
    requires IsOrder(order)
    ensures RoundTripsIn(order) <==> order[2] == SuggestionVariant
  {
    hide DecodeInOrder, EncodeResponse;
    if order[2] == SuggestionVariant {
      forall r ensures DecodeInOrder(order, EncodeResponse(r)) == Success(r) {
        InOrderOnResponse(order, r);
      }
    } else {
      var r := if order[2] == ItemsVariant then ItemsResponse(1, 0, []) else ErrorResponse(1, 0, ErrorBody("", ""));
      InOrderOnResponse(order, r);
      assert DecodeInOrder(order, EncodeResponse(r)) != Success(r);
    }
  }
}
