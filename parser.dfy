/**
 * The configuration parser: a format name is bound once, at construction,
 * to one of three tokenizer libraries, and parsing and stringifying are
 * handed to that library.
 */
module ConfigParser {
  import opened Wrappers
  import opened Errors
  import opened Configuration

  /** The three tokenizer libraries a parser can bind. */
  datatype Tokenizer = TOML | YAML | JSON

  /**
   * What a tokenizer library offers. What its `parse` and `stringify` do is
   * the library's business: the model keeps them as opaque function values.
   * A failed parse gives the library's error message.
   */
  datatype TokenizerImpl = TokenizerImpl(parse: string -> Result<Config, string>, stringify: Config -> string)

  /** The three libraries as loaded: smol-toml, yaml and the built-in JSON. */
  datatype Libraries = Libraries(toml: TokenizerImpl, yaml: TokenizerImpl, json: TokenizerImpl) {
    function Of(t: Tokenizer): TokenizerImpl {
      match t
      case TOML => toml
      case YAML => yaml
      case JSON => json
    }
  }

  const Formats: set<string> := {"toml", "yaml", "json"}

  /** The format name a tokenizer is selected by. */
  function FormatOf(t: Tokenizer): string {
    match t
    case TOML => "toml"
    case YAML => "yaml"
    case JSON => "json"
  }

  /** The `switch` of `getTokenizer`: a supported format names its tokenizer, any other name fails. */
  function TokenizerFor(format: string): (r: Result<Tokenizer, Error>)
    ensures r.Success? <==> format in Formats
    ensures r.Success? ==> FormatOf(r.value) == format
    ensures r.Failure? ==> r.error == UnsupportedFormat(format)
  {
    match format
    case "toml" => Success(TOML)
    case "yaml" => Success(YAML)
    case "json" => Success(JSON)
    case _ => Failure(UnsupportedFormat(format))
  }

  /** Selecting by a tokenizer's own format name gives back that tokenizer. */
  lemma TokenizerForFormatOf(t: Tokenizer)
    ensures TokenizerFor(FormatOf(t)) == Success(t)
  {
  }

  /** A constructed parser: the format it was given and the tokenizer bound for it. */
  datatype Parser = Parser(format: string, tokenizer: Tokenizer) {

    /** The tokenizer was chosen by the switch from the stored format. */
    predicate Valid() {
      TokenizerFor(format) == Success(tokenizer)
    }

    /** `getTokenizer()`, called again on a constructed parser. */
    function GetTokenizer(): Result<Tokenizer, Error> {
      TokenizerFor(format)
    }

    /** `parse(data)`: what the bound tokenizer's `parse` makes of `data`. */
    function Parse(lib: Libraries, data: string): Result<Config, Error> {
      match lib.Of(tokenizer).parse(data)
      case Success(c) => Success(c)
      case Failure(message) => Failure(ParseError(message))
    }

    /** `stringify(data)`: the bound tokenizer's `stringify`. */
    function Stringify(lib: Libraries, data: Config): string {
      lib.Of(tokenizer).stringify(data)
    }
  }

  /**
   * `new Parser(format)`: succeeds exactly for the three supported names,
   * storing the name and binding its tokenizer; any other name fails here,
   * so no parser with an unsupported format exists to fail later.
   */
  function NewParser(format: string): (r: Result<Parser, Error>)
    ensures r.Success? <==> format in Formats
    ensures r.Success? ==> r.value.format == format && r.value.Valid() && FormatOf(r.value.tokenizer) == format
    ensures r.Failure? ==> r.error == UnsupportedFormat(format)
  {
    var t :- TokenizerFor(format);
    Success(Parser(format, t))
  }

  /** Calling `getTokenizer()` on a constructed parser returns the tokenizer bound at construction. */
  lemma GetTokenizerReturnsBound(format: string)
    requires NewParser(format).Success?
    ensures NewParser(format).value.GetTokenizer() == Success(NewParser(format).value.tokenizer)
  {
  }

  /**
   * `parse` and `stringify` consult only the bound tokenizer: libraries that
   * agree on it give the same results, whatever the other two do.
   */
  lemma ParserDelegatesToBoundTokenizer(p: Parser, lib1: Libraries, lib2: Libraries, data: string, c: Config)
    requires lib1.Of(p.tokenizer).parse(data) == lib2.Of(p.tokenizer).parse(data)
    requires lib1.Of(p.tokenizer).stringify(c) == lib2.Of(p.tokenizer).stringify(c)
    ensures p.Parse(lib1, data) == p.Parse(lib2, data)
    ensures p.Stringify(lib1, c) == p.Stringify(lib2, c)
  {
  }

  /** A parse fails exactly when the bound library rejects the text, with that library's message. */
  lemma ParseFailsWithLibraryMessage(p: Parser, lib: Libraries, data: string)
    ensures p.Parse(lib, data).Failure? <==> lib.Of(p.tokenizer).parse(data).Failure?
    ensures p.Parse(lib, data).Failure? ==> p.Parse(lib, data).error == ParseError(lib.Of(p.tokenizer).parse(data).error)
    ensures p.Parse(lib, data).Success? ==> p.Parse(lib, data).value == lib.Of(p.tokenizer).parse(data).value
  {
  }
}
