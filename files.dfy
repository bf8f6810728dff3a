/**
 * Local file helpers: reading the source file and resolving a file name's
 * extension to a parser format.
 */
module Files {
  import opened Wrappers
  import opened Errors
  import ConfigParser

  /** The local file system as the run sees it: the files that exist and their text. */
  type FileSystem = map<string, string>

  /** `readContent(path)`: the file's text, or the "not exists" error when there is no such file. */
  function ReadContent(fs: FileSystem, path: string): (r: Result<string, Error>)
    ensures r.Success? <==> path in fs
    ensures r.Success? ==> r.value == fs[path]
    ensures r.Failure? ==> r.error == FileNotExists(path)
  {
    if path in fs then Success(fs[path]) else Failure(FileNotExists(path))
  }

  /**
   * The text after the last dot of a file name; the whole name when it has no dot.
   */
  function Extension(name: string): (ext: string)
    ensures '.' !in ext
    ensures '.' !in name ==> ext == name
    ensures '.' in name ==> |ext| < |name| && name == name[..|name| - |ext| - 1] + "." + ext
    decreases |name|
  {
    if name == [] then []
    else if name[|name| - 1] == '.' then []
    else
      var front := name[..|name| - 1];
      assert name == front + [name[|name| - 1]];
      Extension(front) + [name[|name| - 1]]
  }

  /** Whatever precedes the last dot, the extension is what follows it. */
  lemma {:induction false} ExtensionAfterLastDot(prefix: string, ext: string)
    requires '.' !in ext
    ensures Extension(prefix + "." + ext) == ext
    decreases |ext|
  {
    var name := prefix + "." + ext;
    if ext != [] {
      var front := ext[..|ext| - 1];
      assert name[..|name| - 1] == prefix + "." + front;
      ExtensionAfterLastDot(prefix, front);
      assert ext == front + [ext[|ext| - 1]];
    } else {
      assert name[|name| - 1] == '.';
    }
  }

  /** The extension table: `toml`, `yaml`/`yml` and `json`/`ejson`. */
  function FormatOfExtension(ext: string): (r: Result<string, Error>)
    ensures r.Success? <==> ext in {"toml", "yaml", "yml", "json", "ejson"}
    ensures r.Success? ==> r.value in ConfigParser.Formats
    ensures r.Success? && ext in ConfigParser.Formats ==> r.value == ext
    ensures ext == "yml" ==> r == Success("yaml")
    ensures ext == "ejson" ==> r == Success("json")
    ensures r.Failure? ==> r.error == UnsupportedFileFormat(ext)
  {
    match ext
    case "toml" => Success("toml")
    case "yaml" => Success("yaml")
    case "yml" => Success("yaml")
    case "json" => Success("json")
    case "ejson" => Success("json")
    case _ => Failure(UnsupportedFileFormat(ext))
  }

  /** `extractFormat(name)`: the format a file name's extension selects. */
  function ExtractFormat(name: string): (r: Result<string, Error>)
    ensures r.Success? <==> Extension(name) in {"toml", "yaml", "yml", "json", "ejson"}
    ensures r.Success? ==> r.value in ConfigParser.Formats
    ensures r.Success? ==> r.value == (if Extension(name) == "yml" then "yaml"
                                       else if Extension(name) == "ejson" then "json"
                                       else Extension(name))
    ensures r.Failure? ==> r.error == UnsupportedFileFormat(Extension(name))
  {
    FormatOfExtension(Extension(name))
  }

  /** A name ending in one of the table's extensions resolves through the table, however many dots precede it. */
  lemma ExtractFormatOfSuffix(prefix: string, ext: string)
    requires ext in {"toml", "yaml", "yml", "json", "ejson"}
    ensures ExtractFormat(prefix + "." + ext) == FormatOfExtension(ext)
    ensures ExtractFormat(prefix + "." + ext).Success?
  {
    ExtensionAfterLastDot(prefix, ext);
  }

  /** A name without a dot fails, naming the whole name as its extension. */
  lemma ExtractFormatWithoutDot(name: string)
    requires '.' !in name && name !in {"toml", "yaml", "yml", "json", "ejson"}
    ensures ExtractFormat(name) == Failure(UnsupportedFileFormat(name))
  {
  }

  /** Dotted names from the source's tests of `extractFormat`. */
  lemma ExtractFormatDottedExamples()
    ensures ExtractFormat("config.yml") == Success("yaml")
    ensures ExtractFormat("archive.tar.gz.json") == Success("json")
  {
    assert "config.yml" == "config" + "." + "yml";
    ExtractFormatOfSuffix("config", "yml");
    assert "archive.tar.gz.json" == "archive.tar.gz" + "." + "json";
    ExtractFormatOfSuffix("archive.tar.gz", "json");
  }

  /** `config.xml` names an extension outside the table. */
  lemma ExtractFormatUnsupportedExample()
    ensures ExtractFormat("config.xml") == Failure(UnsupportedFileFormat("xml"))
  {
    assert "config.xml" == "config" + "." + "xml";
    ExtensionAfterLastDot("config", "xml");
  }

  /** The dotless name from the source's tests of `extractFormat`. */
  lemma ExtractFormatDotlessExample()
    ensures ExtractFormat("config") == Failure(UnsupportedFileFormat("config"))
  {
    var name := "config";
    assert forall i | 0 <= i < |name| :: name[i] != '.';
    ExtractFormatWithoutDot(name);
  }
}
