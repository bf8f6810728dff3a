/**
 * The reconciliation action: validate the inputs, bind one parser per side,
 * check the bucket, load the published configuration (or keep `{}`), load
 * the local one, diff them, and publish the local one unless dry-running.
 */
module Action {
  import opened Wrappers
  import opened Errors
  import opened Configuration
  import opened ConfigDiff
  import opened ConfigParser
  import opened Files
  import opened S3

  /** An input value as the hosting wrapper supplies it: a string or a boolean. */
  datatype InputValue = IStr(s: string) | IBool(b: bool)

  /**
   * The inputs object. Its keys are, in insertion order, bucket, source,
   * destination, awsAccessKey, awsSecretKey, awsRegion and dryRun; awsRegion
   * may be absent.
   */
  datatype Inputs = Inputs(
    bucket: string,
    source: string,
    destination: string,
    awsAccessKey: string,
    awsSecretKey: string,
    awsRegion: Option<string>,
    dryRun: bool)

  const RegionKey: string := "awsRegion"

  /** `Object.keys(inputs)` with the value under each key, in key order. */
  function InputEntries(inputs: Inputs): seq<(string, InputValue)> {
    [("bucket", IStr(inputs.bucket)),
     ("source", IStr(inputs.source)),
     ("destination", IStr(inputs.destination)),
     ("awsAccessKey", IStr(inputs.awsAccessKey)),
     ("awsSecretKey", IStr(inputs.awsSecretKey))]
    + (if inputs.awsRegion.Some? then [(RegionKey, IStr(inputs.awsRegion.value))] else [])
    + [("dryRun", IBool(inputs.dryRun))]
  }

  /** The first key, in order, that is not awsRegion and whose value `isEmpty` rejects. */
  function FirstEmptyInput(entries: seq<(string, InputValue)>, isEmpty: InputValue -> bool): Option<string>
  {
    if entries == [] then None
    else if entries[0].0 != RegionKey && isEmpty(entries[0].1) then Some(entries[0].0)
    else FirstEmptyInput(entries[1..], isEmpty)
  }

  /** What `validateInputs` does: throw for the first empty input, or return. */
  function Validation(inputs: Inputs, isEmpty: InputValue -> bool): Outcome<Error> {
    match FirstEmptyInput(InputEntries(inputs), isEmpty)
    case Some(name) => Fail(EmptyInput(name))
    case None => Pass
  }

  /**
   * What the source's tests fix about the `is-empty-input` library: the empty
   * string is empty; `false` and every non-empty string are not.
   */
  ghost predicate EmptyInputFacts(isEmpty: InputValue -> bool) {
    && isEmpty(IStr(""))
    && !isEmpty(IBool(false))
    && forall s: string :: s != "" ==> !isEmpty(IStr(s))
  }

  /** The parser pair `initParsers` builds: old side from the source's format, new side from the destination's. */
  function ParsersFor(inputs: Inputs): (r: Result<(Parser, Parser), Error>)
    ensures ExtractFormat(inputs.source).Failure? ==> r == Failure(ExtractFormat(inputs.source).error)
    ensures ExtractFormat(inputs.source).Success? && ExtractFormat(inputs.destination).Failure? ==>
              r == Failure(ExtractFormat(inputs.destination).error)
    ensures r.Success? <==> ExtractFormat(inputs.source).Success? && ExtractFormat(inputs.destination).Success?
    ensures r.Success? ==> && r.value.0.Valid() && r.value.0.format == ExtractFormat(inputs.source).value
                           && r.value.1.Valid() && r.value.1.format == ExtractFormat(inputs.destination).value
  {
    var sourceFormat :- ExtractFormat(inputs.source);
    var destinationFormat :- ExtractFormat(inputs.destination);
    // A format extractFormat returns is one the Parser constructor accepts.
    Success((NewParser(sourceFormat).value, NewParser(destinationFormat).value))
  }

  /** What `new Action(inputs)` ends in: an error, or the two parsers it bound. */
  function Construction(inputs: Inputs, isEmpty: InputValue -> bool): Result<(Parser, Parser), Error> {
    match Validation(inputs, isEmpty)
    case Fail(e) => Failure(e)
    case Pass => ParsersFor(inputs)
  }

  /** The published configuration after `ensureOldConfig`: parsed if the object exists, else left as it was. */
  function OldConfigFrom(objects: map<(string, string), string>, bucket: string, key: string,
                         parser: Parser, lib: Libraries, current: Config): Result<Config, Error>
  {
    if (bucket, key) !in objects then Success(current)
    else parser.Parse(lib, objects[(bucket, key)])
  }

  /** The parse of a download, or the download's error. */
  function ParseDownload(parser: Parser, lib: Libraries, content: Result<string, Error>): Result<Config, Error> {
    match content
    case Failure(e) => Failure(e)
    case Success(text) => parser.Parse(lib, text)
  }

  /** The local configuration after `loadNewConfig`: the source file's text parsed. */
  function NewConfigFrom(fs: FileSystem, source: string, parser: Parser, lib: Libraries): Result<Config, Error> {
    var text :- ReadContent(fs, source);
    parser.Parse(lib, text)
  }

  /** `JSON.stringify(config)`. */
  function JsonStringify(lib: Libraries, c: Config): string {
    lib.json.stringify(c)
  }

  /** The outcome of `run`: what it returns, the two configurations it leaves, and what it wrote, if anything. */
  datatype RunOutcome = RunOutcome(
    result: Result<Differences, Error>,
    oldConfig: Config,
    newConfig: Config,
    published: Option<string>)

  /** The run sequence, step by step, on the state it starts from. */
  function RunSpec(inputs: Inputs, buckets: set<string>, objects: map<(string, string), string>,
                   oldConfig: Config, newConfig: Config, oldParser: Parser, newParser: Parser,
                   fs: FileSystem, lib: Libraries): RunOutcome
  {
    if inputs.bucket !in buckets then
      RunOutcome(Failure(BucketNotExists(inputs.bucket)), oldConfig, newConfig, None)
    else
      match OldConfigFrom(objects, inputs.bucket, inputs.destination, oldParser, lib, oldConfig)
      case Failure(e) => RunOutcome(Failure(e), oldConfig, newConfig, None)
      case Success(oc) =>
        match NewConfigFrom(fs, inputs.source, newParser, lib)
        case Failure(e) => RunOutcome(Failure(e), oc, newConfig, None)
        case Success(nc) =>
          RunOutcome(Success(Diff(oc, nc)), oc, nc, if inputs.dryRun then None else Some(JsonStringify(lib, nc)))
  }

  /** The first empty input of a concatenation is the first of the front part, else the first of the rest. */
  lemma {:induction false} FirstEmptyInputAppend(front: seq<(string, InputValue)>, rest: seq<(string, InputValue)>,
                                                 isEmpty: InputValue -> bool)
    ensures FirstEmptyInput(front + rest, isEmpty) ==
            if FirstEmptyInput(front, isEmpty).Some? then FirstEmptyInput(front, isEmpty) else FirstEmptyInput(rest, isEmpty)
    decreases |front|
  {
    if front != [] {
      assert (front + rest)[1..] == front[1..] + rest;
      FirstEmptyInputAppend(front[1..], rest, isEmpty);
    } else {
      assert front + rest == rest;
    }
  }

  /**
   * `validateInputs` reports key `name` exactly when it is the first key, in
   * order, other than awsRegion whose value is empty.
   */
  lemma {:induction false} FirstEmptyInputIsFirst(entries: seq<(string, InputValue)>, isEmpty: InputValue -> bool, name: string)
    ensures FirstEmptyInput(entries, isEmpty) == Some(name) <==>
            exists i | 0 <= i < |entries| ::
              && entries[i].0 == name && name != RegionKey && isEmpty(entries[i].1)
              && forall j | 0 <= j < i :: entries[j].0 == RegionKey || !isEmpty(entries[j].1)
    ensures FirstEmptyInput(entries, isEmpty) == None <==>
            forall i | 0 <= i < |entries| :: entries[i].0 == RegionKey || !isEmpty(entries[i].1)
    decreases |entries|
  {
    if entries != [] {
      var rest := entries[1..];
      FirstEmptyInputIsFirst(rest, isEmpty, name);
      if entries[0].0 == RegionKey || !isEmpty(entries[0].1) {
        if FirstEmptyInput(entries, isEmpty) == Some(name) {
          var k :| 0 <= k < |rest| && rest[k].0 == name && name != RegionKey && isEmpty(rest[k].1)
                   && forall j | 0 <= j < k :: rest[j].0 == RegionKey || !isEmpty(rest[j].1);
          assert entries[k + 1] == rest[k];
          assert forall j | 0 <= j < k + 1 :: entries[j].0 == RegionKey || !isEmpty(entries[j].1) by {
            forall j | 0 <= j < k + 1 ensures entries[j].0 == RegionKey || !isEmpty(entries[j].1) {
              if j > 0 { assert entries[j] == rest[j - 1]; }
            }
          }
        }
        if exists i | 0 <= i < |entries| ::
              && entries[i].0 == name && name != RegionKey && isEmpty(entries[i].1)
              && forall j | 0 <= j < i :: entries[j].0 == RegionKey || !isEmpty(entries[j].1) {
          var i :| 0 <= i < |entries| && entries[i].0 == name && name != RegionKey && isEmpty(entries[i].1)
                   && forall j | 0 <= j < i :: entries[j].0 == RegionKey || !isEmpty(entries[j].1);
          assert i > 0;
          assert rest[i - 1] == entries[i];
          assert forall j | 0 <= j < i - 1 :: rest[j].0 == RegionKey || !isEmpty(rest[j].1) by {
            forall j | 0 <= j < i - 1 ensures rest[j].0 == RegionKey || !isEmpty(rest[j].1) {
              assert rest[j] == entries[j + 1];
            }
          }
        }
        if forall i | 0 <= i < |entries| :: entries[i].0 == RegionKey || !isEmpty(entries[i].1) {
          assert forall i | 0 <= i < |rest| :: rest[i].0 == RegionKey || !isEmpty(rest[i].1) by {
            forall i | 0 <= i < |rest| ensures rest[i].0 == RegionKey || !isEmpty(rest[i].1) {
              assert rest[i] == entries[i + 1];
            }
          }
        }
        if FirstEmptyInput(entries, isEmpty) == None {
          forall i | 0 <= i < |entries| ensures entries[i].0 == RegionKey || !isEmpty(entries[i].1) {
            if i > 0 { assert entries[i] == rest[i - 1]; }
          }
        }
      }
    }
  }

  /** The awsRegion input, present or absent, empty or not, never affects validation. */
  lemma ValidationIgnoresRegion(inputs: Inputs, isEmpty: InputValue -> bool, region: Option<string>)
    ensures Validation(inputs.(awsRegion := region), isEmpty) == Validation(inputs, isEmpty)
  {
    var required := InputEntries(inputs)[..5];
    var last := [("dryRun", IBool(inputs.dryRun))];
    forall r: Option<string>
      ensures InputEntries(inputs.(awsRegion := r)) ==
              required + ((if r.Some? then [(RegionKey, IStr(r.value))] else []) + last)
      ensures FirstEmptyInput(InputEntries(inputs.(awsRegion := r)), isEmpty) ==
              if FirstEmptyInput(required, isEmpty).Some? then FirstEmptyInput(required, isEmpty)
              else FirstEmptyInput(last, isEmpty)
    {
      var middle: seq<(string, InputValue)> := if r.Some? then [(RegionKey, IStr(r.value))] else [];
      FirstEmptyInputAppend(required, middle + last, isEmpty);
      FirstEmptyInputAppend(middle, last, isEmpty);
    }
  }

  /**
   * With the library's known answers on strings: validation names the first
   * empty required string in key order, and otherwise fails on `dryRun`
   * exactly when the library calls its boolean empty. `dryRun`, the last key,
   * is only reached once every string has passed.
   */
  lemma ValidationOfStrings(inputs: Inputs, isEmpty: InputValue -> bool)
    requires EmptyInputFacts(isEmpty)
    ensures Validation(inputs, isEmpty).Pass? <==>
            && inputs.bucket != "" && inputs.source != "" && inputs.destination != ""
            && inputs.awsAccessKey != "" && inputs.awsSecretKey != ""
            && !isEmpty(IBool(inputs.dryRun))
    ensures inputs.bucket == "" ==> Validation(inputs, isEmpty) == Fail(EmptyInput("bucket"))
    ensures inputs.bucket != "" && inputs.source == "" ==> Validation(inputs, isEmpty) == Fail(EmptyInput("source"))
    ensures inputs.bucket != "" && inputs.source != "" && inputs.destination == "" ==>
              Validation(inputs, isEmpty) == Fail(EmptyInput("destination"))
    ensures inputs.bucket != "" && inputs.source != "" && inputs.destination != "" && inputs.awsAccessKey == "" ==>
              Validation(inputs, isEmpty) == Fail(EmptyInput("awsAccessKey"))
    ensures inputs.bucket != "" && inputs.source != "" && inputs.destination != "" && inputs.awsAccessKey != ""
            && inputs.awsSecretKey == "" ==>
              Validation(inputs, isEmpty) == Fail(EmptyInput("awsSecretKey"))
    ensures && inputs.bucket != "" && inputs.source != "" && inputs.destination != ""
            && inputs.awsAccessKey != "" && inputs.awsSecretKey != "" && isEmpty(IBool(inputs.dryRun)) ==>
              Validation(inputs, isEmpty) == Fail(EmptyInput("dryRun"))
    ensures !inputs.dryRun ==> !isEmpty(IBool(inputs.dryRun))
  {
    ValidationIgnoresRegion(inputs, isEmpty, None);
    var e5 := [("dryRun", IBool(inputs.dryRun))];
    var e4 := [("awsSecretKey", IStr(inputs.awsSecretKey))] + e5;
    var e3 := [("awsAccessKey", IStr(inputs.awsAccessKey))] + e4;
    var e2 := [("destination", IStr(inputs.destination))] + e3;
    var e1 := [("source", IStr(inputs.source))] + e2;
    var e0 := [("bucket", IStr(inputs.bucket))] + e1;
    assert InputEntries(inputs.(awsRegion := None)) == e0;
    assert e0[1..] == e1 && e1[1..] == e2 && e2[1..] == e3 && e3[1..] == e4 && e4[1..] == e5 && e5[1..] == [];
    assert e5[0].0 != RegionKey;
    assert FirstEmptyInput(e5, isEmpty) == if isEmpty(IBool(inputs.dryRun)) then Some("dryRun") else None;
    assert isEmpty(IStr(inputs.awsSecretKey)) <==> inputs.awsSecretKey == "";
    assert FirstEmptyInput(e4, isEmpty) ==
           if inputs.awsSecretKey == "" then Some("awsSecretKey") else FirstEmptyInput(e5, isEmpty);
    assert isEmpty(IStr(inputs.awsAccessKey)) <==> inputs.awsAccessKey == "";
    assert FirstEmptyInput(e3, isEmpty) ==
           if inputs.awsAccessKey == "" then Some("awsAccessKey") else FirstEmptyInput(e4, isEmpty);
    assert isEmpty(IStr(inputs.destination)) <==> inputs.destination == "";
    assert FirstEmptyInput(e2, isEmpty) ==
           if inputs.destination == "" then Some("destination") else FirstEmptyInput(e3, isEmpty);
    assert isEmpty(IStr(inputs.source)) <==> inputs.source == "";
    assert FirstEmptyInput(e1, isEmpty) ==
           if inputs.source == "" then Some("source") else FirstEmptyInput(e2, isEmpty);
    assert isEmpty(IStr(inputs.bucket)) <==> inputs.bucket == "";
  }

  /** Construction fails on an empty input before any file name is looked at. */
  lemma ConstructionValidatesFirst(inputs: Inputs, isEmpty: InputValue -> bool)
    requires EmptyInputFacts(isEmpty) && inputs.bucket == ""
    ensures Construction(inputs, isEmpty) == Failure(EmptyInput("bucket"))
  {
    ValidationOfStrings(inputs, isEmpty);
  }

  /** The only error parser setup can raise is an unsupported file extension; the Parser constructor never fails here. */
  lemma ParsersForFailsOnlyOnExtension(inputs: Inputs)
    ensures ParsersFor(inputs).Failure? ==> ParsersFor(inputs).error.UnsupportedFileFormat?
  {
  }

  /**
   * The inputs of the source's tests, with or without awsRegion, construct an
   * action with two JSON parsers. A dry run does too, provided the library
   * does not call `true` empty; for `false` that is one of its known answers.
   */
  lemma ConstructionOfTestInputs(isEmpty: InputValue -> bool, region: Option<string>, dryRun: bool)
    requires EmptyInputFacts(isEmpty) && !isEmpty(IBool(dryRun))
    ensures Construction(Inputs("test-bucket", "test-source.json", "test-destination.json",
                                "test-access-key", "test-secret-key", region, dryRun), isEmpty)
         == Success((Parser("json", JSON), Parser("json", JSON)))
  {
    var inputs := Inputs("test-bucket", "test-source.json", "test-destination.json",
                         "test-access-key", "test-secret-key", region, dryRun);
    ValidationOfStrings(inputs, isEmpty);
    assert "test-source.json" == "test-source" + "." + "json";
    assert "test-destination.json" == "test-destination" + "." + "json";
    ExtractFormatOfSuffix("test-source", "json");
    ExtractFormatOfSuffix("test-destination", "json");
  }

  /**
   * The two sides' parsers are crossed: with a `.ejson` source and a `.yaml`
   * destination, the published (old) side is parsed as JSON and the local
   * (new) side as YAML.
   */
  lemma CrossedParsers(inputs: Inputs)
    requires inputs.source == "config.ejson" && inputs.destination == "out.yaml"
    ensures ParsersFor(inputs) == Success((Parser("json", JSON), Parser("yaml", YAML)))
  {
    assert "config.ejson" == "config" + "." + "ejson";
    assert "out.yaml" == "out" + "." + "yaml";
    ExtractFormatOfSuffix("config", "ejson");
    ExtractFormatOfSuffix("out", "yaml");
  }

  /** A missing bucket ends the run with its error before any configuration is loaded or written. */
  lemma RunStopsOnMissingBucket(inputs: Inputs, buckets: set<string>, objects: map<(string, string), string>,
                                oldC: Config, newC: Config, op: Parser, np: Parser, fs: FileSystem, lib: Libraries)
    requires inputs.bucket !in buckets
    ensures RunSpec(inputs, buckets, objects, oldC, newC, op, np, fs, lib)
         == RunOutcome(Failure(BucketNotExists(inputs.bucket)), oldC, newC, None)
  {
  }

  /**
   * Publishing: a failed run writes nothing; a successful run writes once,
   * `JSON.stringify` of the loaded local configuration, unless dry-running,
   * and then writes nothing.
   */
  lemma RunPublishesUnlessDry(inputs: Inputs, buckets: set<string>, objects: map<(string, string), string>,
                              oldC: Config, newC: Config, op: Parser, np: Parser, fs: FileSystem, lib: Libraries)
    ensures var o := RunSpec(inputs, buckets, objects, oldC, newC, op, np, fs, lib);
            && (o.result.Failure? ==> o.published == None)
            && (o.result.Success? ==> (o.published.Some? <==> !inputs.dryRun))
            && (o.published.Some? ==> o.published.value == JsonStringify(lib, o.newConfig))
  {
  }

  /** A failed step leaves every later step's state as it was: a failed old load keeps both configurations. */
  lemma RunFailureStopsLaterSteps(inputs: Inputs, buckets: set<string>, objects: map<(string, string), string>,
                                  oldC: Config, newC: Config, op: Parser, np: Parser, fs: FileSystem, lib: Libraries)
    requires inputs.bucket in buckets
    ensures var o := RunSpec(inputs, buckets, objects, oldC, newC, op, np, fs, lib);
            var loaded := OldConfigFrom(objects, inputs.bucket, inputs.destination, op, lib, oldC);
            && (loaded.Failure? ==> o == RunOutcome(Failure(loaded.error), oldC, newC, None))
            && (loaded.Success? && NewConfigFrom(fs, inputs.source, np, lib).Failure? ==>
                  o == RunOutcome(Failure(NewConfigFrom(fs, inputs.source, np, lib).error), loaded.value, newC, None))
  {
  }

  /** A dry run returns the same result and leaves the same configurations as a real run. */
  lemma DryRunSameDifferences(inputs: Inputs, buckets: set<string>, objects: map<(string, string), string>,
                              oldC: Config, newC: Config, op: Parser, np: Parser, fs: FileSystem, lib: Libraries)
    ensures var dry := RunSpec(inputs.(dryRun := true), buckets, objects, oldC, newC, op, np, fs, lib);
            var wet := RunSpec(inputs.(dryRun := false), buckets, objects, oldC, newC, op, np, fs, lib);
            dry.result == wet.result && dry.oldConfig == wet.oldConfig && dry.newConfig == wet.newConfig
  {
  }

  /**
   * A successful run reports the diff of the configurations it loaded; when
   * the destination object does not exist, the fresh action's `{}` stays the
   * old side and every key of the local configuration is reported added.
   */
  lemma RunWithoutPublishedConfigAddsAll(inputs: Inputs, buckets: set<string>, objects: map<(string, string), string>,
                                         newC: Config, op: Parser, np: Parser, fs: FileSystem, lib: Libraries)
    requires inputs.bucket in buckets && (inputs.bucket, inputs.destination) !in objects
    requires NewConfigFrom(fs, inputs.source, np, lib).Success?
    ensures var loaded := NewConfigFrom(fs, inputs.source, np, lib).value;
            RunSpec(inputs, buckets, objects, [], newC, op, np, fs, lib).result
            == Success(Differences(Entries(loaded), [], []))
  {
    DiffFromEmpty(NewConfigFrom(fs, inputs.source, np, lib).value);
  }

  /** The run's write, when it happens, goes into a bucket the run has checked, so it cannot fail. */
  lemma RunPublishesIntoCheckedBucket(inputs: Inputs, buckets: set<string>, objects: map<(string, string), string>,
                                      oldC: Config, newC: Config, op: Parser, np: Parser, fs: FileSystem, lib: Libraries)
    ensures RunSpec(inputs, buckets, objects, oldC, newC, op, np, fs, lib).published.Some? ==> inputs.bucket in buckets
  {
  }

  class Action {
    const inputs: Inputs
    const s3: Client
    var oldConfig: Config
    var newConfig: Config
    var oldConfigParser: Option<Parser>
    var newConfigParser: Option<Parser>

    /** A constructed action: both parsers are bound, and the store is consistent. */
    ghost predicate Valid()
      reads this, s3
    {
      oldConfigParser.Some? && newConfigParser.Some? && s3.Valid()
    }

    /** The field set-up of the constructor: both configurations `{}`, both parsers `null`. */
    constructor (inputs: Inputs, s3: Client)
      ensures this.inputs == inputs && this.s3 == s3
      ensures oldConfig == [] && newConfig == []
      ensures oldConfigParser == None && newConfigParser == None
    {
      this.inputs := inputs;
      this.s3 := s3;
      oldConfig := [];
      newConfig := [];
      oldConfigParser := None;
      newConfigParser := None;
    }

    /**
     * `new Action(inputs)`: validates before anything is built, then sets up
     * the fields and binds the parsers. The store stands for the client the
     * constructor builds from the credentials and region.
     */
    static method Create(inputs: Inputs, isEmpty: InputValue -> bool, s3: Client) returns (r: Result<Action, Error>)
      ensures r.Success? <==> Construction(inputs, isEmpty).Success?
      ensures r.Failure? ==> r.error == Construction(inputs, isEmpty).error
      ensures r.Success? ==>
                && fresh(r.value)
                && r.value.inputs == inputs && r.value.s3 == s3
                && r.value.oldConfig == [] && r.value.newConfig == []
                && r.value.oldConfigParser == Some(Construction(inputs, isEmpty).value.0)
                && r.value.newConfigParser == Some(Construction(inputs, isEmpty).value.1)
      ensures r.Success? && s3.Valid() ==> r.value.Valid()
    {
      var validation := ValidateInputs(inputs, isEmpty);
      if validation.Fail? {
        return Failure(validation.error);
      }
      var action := new Action(inputs, s3);
      var parsers := action.InitParsers();
      if parsers.Fail? {
        return Failure(parsers.error);
      }
      return Success(action);
    }

    /** `validateInputs()`: walks the keys in order, skips awsRegion, fails on the first empty value. */
    static method ValidateInputs(inputs: Inputs, isEmpty: InputValue -> bool) returns (r: Outcome<Error>)
      ensures r == Validation(inputs, isEmpty)
    {
      var entries := InputEntries(inputs);
      var i := 0;
      while i < |entries|
        invariant 0 <= i <= |entries|
        invariant FirstEmptyInput(entries[i..], isEmpty) == FirstEmptyInput(entries, isEmpty)
      {
        var (name, value) := entries[i];
        if name != RegionKey && isEmpty(value) {
          return Fail(EmptyInput(name));
        }
        assert entries[i..][1..] == entries[i + 1..];
        i := i + 1;
      }
      return Pass;
    }

    /** `initParsers()`: the old side gets the source's format, the new side the destination's. */
    method InitParsers() returns (r: Outcome<Error>)
      modifies this`oldConfigParser, this`newConfigParser
      ensures r.Pass? <==> ParsersFor(inputs).Success?
      ensures r.Fail? ==> r.error == ParsersFor(inputs).error
      ensures r.Fail? ==> oldConfigParser == old(oldConfigParser) && newConfigParser == old(newConfigParser)
      ensures r.Pass? ==> && oldConfigParser == Some(ParsersFor(inputs).value.0)
                          && newConfigParser == Some(ParsersFor(inputs).value.1)
    {
      var sourceFormat := ExtractFormat(inputs.source);
      if sourceFormat.Failure? {
        return Fail(sourceFormat.error);
      }
      var destinationFormat := ExtractFormat(inputs.destination);
      if destinationFormat.Failure? {
        return Fail(destinationFormat.error);
      }
      oldConfigParser := Some(NewParser(sourceFormat.value).value);
      newConfigParser := Some(NewParser(destinationFormat.value).value);
      return Pass;
    }

    /** `verifyIfBucketExists()`: fails with the bucket's name when the store has no such bucket. */
    method VerifyIfBucketExists() returns (r: Outcome<Error>)
      ensures r.Pass? <==> inputs.bucket in s3.buckets
      ensures r.Fail? ==> r.error == BucketNotExists(inputs.bucket)
    {
      var bucketExists := s3.BucketExists(inputs.bucket);
      if !bucketExists {
        return Fail(BucketNotExists(inputs.bucket));
      }
      return Pass;
    }

    /** `ensureOldConfig()`: downloads and parses the destination object if it exists; otherwise keeps `oldConfig`. */
    method EnsureOldConfig(lib: Libraries) returns (r: Outcome<Error>)
      requires Valid()
      modifies this`oldConfig
      ensures var loaded := OldConfigFrom(old(s3.objects), inputs.bucket, inputs.destination,
                                          oldConfigParser.value, lib, old(oldConfig));
              && (r.Pass? <==> loaded.Success?)
              && (r.Pass? ==> oldConfig == loaded.value)
              && (r.Fail? ==> oldConfig == old(oldConfig) && r.error == loaded.error)
    {
      var oldConfigExists := s3.FileExists(inputs.bucket, inputs.destination);
      if !oldConfigExists {
        return Pass;
      }
      var content := s3.DownloadFile(inputs.bucket, inputs.destination);
      var parsed := ParseDownload(oldConfigParser.value, lib, content);
      if parsed.Failure? {
        return Fail(parsed.error);
      }
      oldConfig := parsed.value;
      return Pass;
    }

    /** `loadNewConfig()`: reads the source file and parses it with the new side's parser. */
    method LoadNewConfig(fs: FileSystem, lib: Libraries) returns (r: Outcome<Error>)
      requires Valid()
      modifies this`newConfig
      ensures var loaded := NewConfigFrom(fs, inputs.source, newConfigParser.value, lib);
              && (r.Pass? <==> loaded.Success?)
              && (r.Pass? ==> newConfig == loaded.value)
              && (r.Fail? ==> newConfig == old(newConfig) && r.error == loaded.error)
    {
      var content := ReadContent(fs, inputs.source);
      if content.Failure? {
        return Fail(content.error);
      }
      var parsed := newConfigParser.value.Parse(lib, content.value);
      if parsed.Failure? {
        return Fail(parsed.error);
      }
      newConfig := parsed.value;
      return Pass;
    }

    /**
     * `getDifferences()`: one pass over the new configuration collects added
     * and updated keys, a second pass over the old one collects removed keys.
     * It changes nothing.
     */
    method GetDifferences() returns (result: Differences)
      ensures result == Diff(oldConfig, newConfig)
    {
      var added: seq<Entry> := [];
      var removed: seq<Entry> := [];
      var updated: seq<Update> := [];
      for i := 0 to |newConfig|
        invariant added == AddedIn(oldConfig, newConfig[..i])
        invariant updated == UpdatedIn(oldConfig, newConfig[..i])
      {
        var key := newConfig[i].0;
        assert newConfig[..i + 1][..i] == newConfig[..i];
        if !HasKey(oldConfig, key) {
          added := added + [Entry(key, newConfig[i].1)];
        } else if !StrictEquals(newConfig[i].1, Get(oldConfig, key)) {
          updated := updated + [Update(key, Get(oldConfig, key), newConfig[i].1)];
        }
      }
      for i := 0 to |oldConfig|
        invariant removed == RemovedIn(oldConfig[..i], newConfig)
      {
        var key := oldConfig[i].0;
        assert oldConfig[..i + 1][..i] == oldConfig[..i];
        if !HasKey(newConfig, key) {
          removed := removed + [Entry(key, oldConfig[i].1)];
        }
      }
      assert newConfig[..|newConfig|] == newConfig;
      assert oldConfig[..|oldConfig|] == oldConfig;
      return Differences(added, removed, updated);
    }

    /** `updateConfig()`: writes `JSON.stringify(newConfig)` to the destination key, whatever its format. */
    method UpdateConfig(lib: Libraries) returns (r: Outcome<Error>)
      requires s3.Valid()
      modifies s3
      ensures s3.Valid() && s3.buckets == old(s3.buckets)
      ensures r == (if inputs.bucket in s3.buckets then Pass else Fail(NoSuchBucket(inputs.bucket)))
      ensures r.Pass? ==>
                && s3.objects == old(s3.objects)[(inputs.bucket, inputs.destination) := JsonStringify(lib, newConfig)]
                && s3.writes == old(s3.writes) + [Write(inputs.bucket, inputs.destination, JsonStringify(lib, newConfig))]
      ensures r.Fail? ==> s3.objects == old(s3.objects) && s3.writes == old(s3.writes)
    {
      r := s3.CreateFile(inputs.bucket, inputs.destination, JsonStringify(lib, newConfig));
    }

    /** `run()`: the steps in order; the first failure ends the run. */
    method Run(fs: FileSystem, lib: Libraries) returns (r: Result<Differences, Error>)
      requires Valid()
      modifies this`oldConfig, this`newConfig, s3
      ensures Valid()
      ensures oldConfigParser == old(oldConfigParser) && newConfigParser == old(newConfigParser)
      ensures var o := old(RunSpec(inputs, s3.buckets, s3.objects, oldConfig, newConfig,
                                   oldConfigParser.value, newConfigParser.value, fs, lib));
              && r == o.result && oldConfig == o.oldConfig && newConfig == o.newConfig
              && s3.buckets == old(s3.buckets)
              && (o.published.None? ==> s3.objects == old(s3.objects) && s3.writes == old(s3.writes))
              && (o.published.Some? ==>
                    && s3.objects == old(s3.objects)[(inputs.bucket, inputs.destination) := o.published.value]
                    && s3.writes == old(s3.writes) + [Write(inputs.bucket, inputs.destination, o.published.value)])
    {
      var bucket := VerifyIfBucketExists();
      if bucket.Fail? {
        return Failure(bucket.error);
      }
      var oldLoaded := EnsureOldConfig(lib);
      if oldLoaded.Fail? {
        return Failure(oldLoaded.error);
      }
      var newLoaded := LoadNewConfig(fs, lib);
      if newLoaded.Fail? {
        return Failure(newLoaded.error);
      }
      var differences := GetDifferences();
      if !inputs.dryRun {
        var published := UpdateConfig(lib);
        return published.ToResult(differences);
      }
      return Success(differences);
    }
  }

  /**
   * The run spec on the state of the end-to-end test of `run`, from any
   * starting configurations: both loads overwrite them.
   */
  lemma RunExampleOutcome(lib: Libraries, inputs: Inputs, objects: map<(string, string), string>, fs: FileSystem,
                          oldStart: Config, newStart: Config)
    requires lib.json.parse("{\"key1\":\"value1\"}") == Success([("key1", Str("value1"))])
    requires lib.json.parse("{\"key2\":\"value2\"}") == Success([("key2", Str("value2"))])
    requires inputs == Inputs("test-bucket", "test-source.json", "test-destination.json",
                              "test-access-key", "test-secret-key", Some("us-east-1"), false)
    requires objects == map[("test-bucket", "test-destination.json") := "{\"key1\":\"value1\"}"]
    requires fs == map["test-source.json" := "{\"key2\":\"value2\"}"]
    ensures RunSpec(inputs, {"test-bucket"}, objects, oldStart, newStart,
                    Parser("json", JSON), Parser("json", JSON), fs, lib)
         == RunOutcome(Success(Differences([Entry("key2", Str("value2"))], [Entry("key1", Str("value1"))], [])),
                       [("key1", Str("value1"))], [("key2", Str("value2"))],
                       Some(lib.json.stringify([("key2", Str("value2"))])))
  {
    var oldC: Config := [("key1", Str("value1"))];
    var newC: Config := [("key2", Str("value2"))];
    var p := Parser("json", JSON);
    assert p.Parse(lib, "{\"key1\":\"value1\"}") == Success(oldC);
    assert p.Parse(lib, "{\"key2\":\"value2\"}") == Success(newC);
    assert OldConfigFrom(objects, inputs.bucket, inputs.destination, p, lib, oldStart) == Success(oldC);
    assert NewConfigFrom(fs, inputs.source, p, lib) == Success(newC);
    assert oldC[0].0 == "key1" && newC[0].0 == "key2";
    DiffOfDisjointConfigs(oldC, newC);
    assert Entries(newC) == [Entry("key2", Str("value2"))];
    assert Entries(oldC) == [Entry("key1", Str("value1"))];
  }

  /**
   * The end-to-end test of `run`: the bucket holds `{"key1":"value1"}` at the
   * destination, the source file holds `{"key2":"value2"}`; the run reports
   * key2 added and key1 removed, and writes the new configuration once.
   */
  method RunExample(lib: Libraries) returns (r: Result<Differences, Error>, writes: seq<Write>)
    requires lib.json.parse("{\"key1\":\"value1\"}") == Success([("key1", Str("value1"))])
    requires lib.json.parse("{\"key2\":\"value2\"}") == Success([("key2", Str("value2"))])
    ensures r == Success(Differences([Entry("key2", Str("value2"))], [Entry("key1", Str("value1"))], []))
    ensures writes == [Write("test-bucket", "test-destination.json", lib.json.stringify([("key2", Str("value2"))]))]
  {
    var store := new Client({"test-bucket"}, map[("test-bucket", "test-destination.json") := "{\"key1\":\"value1\"}"]);
    var inputs := Inputs("test-bucket", "test-source.json", "test-destination.json",
                         "test-access-key", "test-secret-key", Some("us-east-1"), false);
    var isEmpty := (v: InputValue) => v == IStr("");
    ConstructionOfTestInputs(isEmpty, Some("us-east-1"), false);
    var created := Action.Create(inputs, isEmpty, store);
    var action := created.value;
    var fs := map["test-source.json" := "{\"key2\":\"value2\"}"];
    RunExampleOutcome(lib, inputs, store.objects, fs, action.oldConfig, action.newConfig);
    r := action.Run(fs, lib);
    writes := store.writes;
  }
}
