/** The completion spec tree (crates/core/src/types). */
module SpecTypes {
  import opened Wrappers

  type U8 = x: int | 0 <= x < 0x100
  type U32 = x: int | 0 <= x < 0x1_0000_0000
  type U64 = x: int | 0 <= x < 0x1_0000_0000_0000_0000
  type I64 = x: int | -0x8000_0000_0000_0000 <= x < 0x8000_0000_0000_0000

  /** A name field: one name, or several with the canonical one first. */
  datatype StringList = One(name: string) | Many(names: seq<string>) {
    function Canonical(): (r: string)
      ensures r == if All() == [] then "" else All()[0]
    {
      match this
      case One(s) => s
      case Many(v) => if v == [] then "" else v[0]
    }

    function All(): (r: seq<string>)
      ensures One? ==> r == [name]
      ensures Many? ==> r == names
    {
      match this
      case One(s) => [s]
      case Many(v) => v
    }
  }

  datatype Template = Filepaths | Folders | History

  datatype GeneratorCache = GeneratorCache(ttlMs: U64)

  datatype Generator = Generator(
    run: seq<string>,
    splitOn: Option<string>,
    trim: Option<bool>,
    extract: Option<string>,
    priority: Option<U8>,
    cache: Option<GeneratorCache>)

  datatype Suggestion = Suggestion(
    name: StringList,
    displayName: Option<string>,
    insertValue: Option<string>,
    description: Option<string>,
    priority: Option<U8>,
    isDangerous: Option<bool>,
    hidden: Option<bool>,
    deprecated: Option<bool>)

  datatype Arg = Arg(
    name: Option<string>,
    description: Option<string>,
    isOptional: bool,
    isVariadic: bool,
    template: Option<Template>,
    suggestions: seq<Suggestion>,
    generator: Option<Generator>,
    isCommand: bool)

  datatype Repeatable = Flag(on: bool) | Max(count: U32)

  datatype Opt = Opt(
    name: StringList,
    description: Option<string>,
    args: seq<Arg>,
    isRequired: bool,
    isRepeatable: Repeatable,
    isPersistent: bool,
    requiresSeparator: bool,
    exclusiveOn: seq<string>,
    dependsOn: seq<string>)

  datatype ParserDirectives = ParserDirectives(
    flagsArePosixNoncompliant: bool,
    optionsMustPrecedeArguments: bool,
    optionArgSeparators: seq<string>)

  datatype Subcommand = Subcommand(
    name: StringList,
    description: Option<string>,
    subcommands: seq<Subcommand>,
    options: seq<Opt>,
    args: seq<Arg>,
    requiresSubcommand: bool,
    parserDirectives: Option<ParserDirectives>)
}
