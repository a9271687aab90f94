/** The JSON form of the spec tree (crates/core/src/types): what is skipped, what has two
    forms, and that decoding undoes encoding. */
module SpecEncoding {
  import opened Wrappers
  import opened Sequences
  import opened SpecTypes
  import opened Json

  // ----- names

  function EncodeNames(n: StringList): Json {
    match n
    case One(s) => Str(s)
    case Many(v) => Arr(Map(EncodeString, v))
  }

  /** Untagged: a string, or else an array of strings. */
  function DecodeNames(j: Json): Decoded<StringList> {
    match j
    case Str(s) => Success(One(s))
    case Arr(items) =>
      var v :- DecodeAll(DecodeString, items);
      Success(Many(v))
    case _ => Failure(Invalid)
  }

  lemma {:induction false} StringsUndone()
    ensures Undoes(DecodeString, EncodeString)
  {
  }

  lemma {:induction false} NamesRoundTrip(n: StringList)
    ensures DecodeNames(EncodeNames(n)) == Success(n)
  {
    hide DecodeAll, Map;
    StringsUndone();
    if n.Many? {
      DecodeAllMap(DecodeString, EncodeString, n.names);
    }
  }

  // ----- numbers and enumerations

  function EncodeU8(n: U8): Json {
    Num(n)
  }

  function DecodeU8(j: Json): Decoded<U8> {
    if j.Num? && 0 <= j.n < 0x100 then Success(j.n) else Failure(Invalid)
  }

  function EncodeU64(n: U64): Json {
    Num(n)
  }

  function DecodeU64(j: Json): Decoded<U64> {
    if j.Num? && 0 <= j.n < 0x1_0000_0000_0000_0000 then Success(j.n) else Failure(Invalid)
  }

  function EncodeTemplate(t: Template): Json {
    match t
    case Filepaths => Str("filepaths")
    case Folders => Str("folders")
    case History => Str("history")
  }

  function DecodeTemplate(j: Json): Decoded<Template> {
    if j == Str("filepaths") then Success(Filepaths)
    else if j == Str("folders") then Success(Folders)
    else if j == Str("history") then Success(History)
    else Failure(Invalid)
  }

  /** Untagged: a boolean, or else a count. */
  function DecodeRepeatable(j: Json): Decoded<Repeatable> {
    match j
    case Bool(b) => Success(Flag(b))
    case Num(n) => if 0 <= n < 0x1_0000_0000 then Success(Max(n)) else Failure(Invalid)
    case _ => Failure(Invalid)
  }

  function EncodeRepeatable(r: Repeatable): Json {
    match r
    case Flag(b) => Bool(b)
    case Max(n) => Num(n)
  }

  lemma {:induction false} LeavesUndone()
    ensures UndoesOptional(DecodeU8, EncodeU8) && UndoesOptional(DecodeTemplate, EncodeTemplate)
    ensures UndoesOptional(DecodeBool, EncodeBool) && UndoesOptional(DecodeString, EncodeString)
    ensures Undoes(DecodeString, EncodeString) && Undoes(DecodeRepeatable, EncodeRepeatable)
  {
  }

  // ----- generators

  function CacheSlots(c: GeneratorCache): seq<Slot> {
    [Slot("ttlMs", Some(EncodeU64(c.ttlMs)))]
  }

  function EncodeCache(c: GeneratorCache): Json {
    Obj(Present(CacheSlots(c)))
  }

  function DecodeCache(j: Json): Decoded<GeneratorCache> {
    if !j.Obj? then Failure(Invalid)
    else
      var ttlMs :- NeedField(j.fields, "ttlMs", DecodeU64);
      Success(GeneratorCache(ttlMs))
  }

  lemma {:induction false} CacheRoundTrip(c: GeneratorCache)
    ensures DecodeCache(EncodeCache(c)) == Success(c)
  {
    hide Present, NeedField;
    NeedRoundTrip(CacheSlots(c), 0, "ttlMs", c.ttlMs, DecodeU64, EncodeU64);
  }

  function EncodeStrings(v: seq<string>): Json {
    Arr(Map(EncodeString, v))
  }

  function DecodeStrings(j: Json): Decoded<seq<string>> {
    if j.Arr? then DecodeAll(DecodeString, j.items) else Failure(Invalid)
  }

  function GeneratorSlots(g: Generator): seq<Slot> {
    [Slot("run", Some(EncodeStrings(g.run))),
     OptSlot("splitOn", g.splitOn, EncodeString),
     OptSlot("trim", g.trim, EncodeBool),
     OptSlot("extract", g.extract, EncodeString),
     OptSlot("priority", g.priority, EncodeU8),
     OptSlot("cache", g.cache, EncodeCache)]
  }

  function EncodeGenerator(g: Generator): Json {
    Obj(Present(GeneratorSlots(g)))
  }

  function DecodeGenerator(j: Json): Decoded<Generator> {
    if !j.Obj? then Failure(Invalid)
    else
      var run :- NeedField(j.fields, "run", DecodeStrings);
      var splitOn :- OptField(j.fields, "splitOn", DecodeString);
      var trim :- OptField(j.fields, "trim", DecodeBool);
      var extract :- OptField(j.fields, "extract", DecodeString);
      var priority :- OptField(j.fields, "priority", DecodeU8);
      var cache :- OptField(j.fields, "cache", DecodeCache);
      Success(Generator(run, splitOn, trim, extract, priority, cache))
  }

  lemma {:induction false} StringsRoundTrip(v: seq<string>)
    ensures DecodeStrings(EncodeStrings(v)) == Success(v)
  {
    StringsUndone();
    DecodeAllMap(DecodeString, EncodeString, v);
  }

  lemma {:induction false} CachesUndone()
    ensures UndoesOptional(DecodeCache, EncodeCache)
  {
    hide DecodeCache;
    forall c: GeneratorCache ensures DecodeCache(EncodeCache(c)) == Success(c) {
      CacheRoundTrip(c);
    }
  }

  lemma {:induction false} GeneratorRoundTrip(g: Generator)
    ensures DecodeGenerator(EncodeGenerator(g)) == Success(g)
  {
    var slots := GeneratorSlots(g);
    LeavesUndone();
    CachesUndone();
    StringsRoundTrip(g.run);
    assert DistinctKeys(slots);
    hide DistinctKeys, OptSlot, Present, NeedField, OptField, UndoesOptional, EncodeStrings, DecodeStrings,
      EncodeCache, DecodeCache;
    NeedRoundTrip(slots, 0, "run", g.run, DecodeStrings, EncodeStrings);
    OptRoundTrip(slots, 1, "splitOn", g.splitOn, DecodeString, EncodeString);
    OptRoundTrip(slots, 2, "trim", g.trim, DecodeBool, EncodeBool);
    OptRoundTrip(slots, 3, "extract", g.extract, DecodeString, EncodeString);
    OptRoundTrip(slots, 4, "priority", g.priority, DecodeU8, EncodeU8);
    OptRoundTrip(slots, 5, "cache", g.cache, DecodeCache, EncodeCache);
  }
}
