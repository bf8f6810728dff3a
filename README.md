# s3-app-configure-action: reconciliation core in Dafny

This project models the core of a GitHub Action that publishes a configuration file to an S3 bucket. An `Action` is built from its inputs. It validates them, then binds one `Parser` per side from the file names' extensions. Its `run` then:

1. checks that the bucket exists;
2. loads the configuration already published at the destination key, or keeps `{}`;
3. loads the local source file;
4. computes what was added, removed and updated;
5. writes the new configuration unless `dryRun` is set.

Modules, one per file:

- `Wrappers` (wrappers.dfy): `Option`, `Result` and `Outcome`. A step that throws in the source returns one of these.
- `Errors` (errors.dfy): the errors the core raises. The ones the core throws itself carry the messages the source gives them. `ParseError` carries the tokenizer library's own message. `NoSuchKey` and `NoSuchBucket` carry the texts of the storage service, which are not part of this source.
- `Configuration` (configuration.dfy): parsed values, JavaScript's `===` on them, and configurations. A configuration is an insertion-ordered sequence of `(key, value)` pairs with distinct keys, which is what `for...in` walks. A composite value (object or array) is represented only by its identity, because `===` compares composites by reference.
- `ConfigDiff` (diff.dfy): the functional specification of `getDifferences`, and lemmas on it.
- `ConfigParser` (parser.dfy): `Parser` as a datatype. It binds a format name to one of three tokenizer libraries at construction and delegates `parse`/`stringify` to it. The libraries are a `Libraries` value of opaque function values.
- `Files` (files.dfy): `readContent` over an in-memory file system, and `extractFormat`.
- `S3` (s3.dfy): an in-memory fake of the S3 client, as a class. It holds a set of buckets, a map from (bucket, key) to text, and a log of writes. Its existence checks return plain booleans, as the client does for "not found".
- `Action` (action.dfy): the `Action` class and the functional specifications of its steps:
  - `Validation` and `ParsersFor`, which together give `Construction`;
  - `OldConfigFrom` and `NewConfigFrom`, for the two loads;
  - `RunSpec`, for the whole run.

  `Run` is proved to leave exactly the state `RunSpec` describes. The lemmas about `RunSpec` state what the run promises.

Behaviour of the code that a reader might not expect, and that the model keeps:

- The parsers are crossed. `oldConfigParser` gets the source file's format and parses the published object. `newConfigParser` gets the destination's format and parses the local file (`src/action.js:223-224`). `Action.CrossedParsers` shows this for a `.ejson` source and a `.yaml` destination.
- Publishing always writes `JSON.stringify(newConfig)`, whatever the destination's format (`src/action.js:107`).
- `validateInputs` checks every key except `awsRegion`, including `dryRun`. For `dryRun: false` this changes nothing, since `false` is not empty. Whether the library calls `true` empty is not fixed by its tests, so a dry run is shown to construct only under the assumption that it does not (`Action.ConstructionOfTestInputs`).
- The model does not lower-case extensions. The body of `extractFormat` is not part of this model; it is specified from its tests, and they do not show lower-casing.
- The defaults for `awsRegion` and `dryRun` are applied by the hosting wrapper (`index.js`), not by the core. The model takes its inputs as given.

## Model

| member | source | states |
|---|---|---|
| `Action.Action.Create` | src/action.js:36-53 | construction fails with the first empty input's error before any parser is built, else with the parser-setup error; otherwise it returns a fresh action holding the inputs and store, both configurations `{}` and the two parsers of `Construction`; over a consistent store the new action satisfies `Run`'s precondition |
| `Action.Action.constructor` | src/action.js:37-50 | the fields start as the inputs, the store, `{}` for both configurations and no parsers |
| `Action.Action.ValidateInputs` | src/action.js:204-214 | the loop over the keys returns exactly `Validation`: `Input '<name>' is empty.` for the first key other than awsRegion whose value is empty, else success |
| `Action.FirstEmptyInputIsFirst` | src/action.js:205-213 | the reported key is the first one, in key order, that is not awsRegion and is empty (both directions); no report means every other key is non-empty |
| `Action.FirstEmptyInputAppend` | src/action.js:205-213 | the scan stops at the first empty key: over a concatenation it is the front's answer if there is one, else the rest's |
| `Action.ValidationIgnoresRegion` | src/action.js:206-208 | awsRegion present, absent or empty never changes the validation result |
| `Action.ValidationOfStrings` | src/action.js:204-214 | given the library's known answers on strings, validation names the first empty required string in key order, for any `dryRun`; when all five are non-empty it fails on `dryRun` exactly when the library calls that boolean empty, which `false` never is |
| `Action.ConstructionValidatesFirst` | src/action.js:36-38 | an empty bucket fails construction with `Input 'bucket' is empty.` whatever the file names and whatever `dryRun` is |
| `Action.ConstructionOfTestInputs` | tests/action.test.js:182-185 | the test inputs construct an action with two JSON parsers, with or without awsRegion, for `dryRun: false` and also for a dry run when the library does not call `true` empty |
| `Action.ParsersFor` | src/action.js:219-225 | the old-side parser carries the source's format and the new-side parser the destination's; it fails exactly when one of the two extensions is unsupported, with the source's error first |
| `Action.ParsersForFailsOnlyOnExtension` | src/action.js:220-224 | parser setup can only fail with `Unsupported file format`; the Parser constructor never fails on what `extractFormat` returns |
| `Action.CrossedParsers` | src/action.js:223-224 | with source `config.ejson` and destination `out.yaml`, the old side is a JSON parser and the new side a YAML parser |
| `Action.Action.InitParsers` | src/action.js:219-225 | binds both parser fields as `ParsersFor` says, or fails with its error leaving them unset |
| `Action.Action.VerifyIfBucketExists` | src/action.js:183-189 | passes exactly when the bucket exists, else fails with `Bucket '<bucket>' not exists.` |
| `Action.Action.EnsureOldConfig` | src/action.js:158-174 | when no object exists at the destination nothing is downloaded and `oldConfig` keeps its value; otherwise `oldConfig` becomes the old-side parse of the object, and a failed parse leaves it unchanged |
| `Action.Action.LoadNewConfig` | src/action.js:194-197 | `newConfig` becomes the new-side parse of the source file; a missing file or failed parse leaves it unchanged and returns that error |
| `Action.Action.GetDifferences` | src/action.js:117-151 | the two loops return exactly `Diff(oldConfig, newConfig)` and change nothing |
| `Action.Action.UpdateConfig` | src/action.js:103-109 | writes `JSON.stringify(newConfig)` once to (bucket, destination), replacing the object, and changes no other object |
| `Action.Action.Run` | src/action.js:84-96 | the result, both configurations and the store afterwards are those of `RunSpec`: one write of the published text when `RunSpec` publishes, none otherwise |
| `Action.RunStopsOnMissingBucket` | src/action.js:84-87 | a missing bucket ends the run with `Bucket '<bucket>' not exists.`, loading and writing nothing |
| `Action.RunFailureStopsLaterSteps` | src/action.js:84-89 | a failed old load leaves both configurations as they were, and a failed new load leaves `newConfig` as it was; neither writes |
| `Action.RunPublishesUnlessDry` | src/action.js:89-95 | a failed run writes nothing; a successful run writes exactly when `dryRun` is false, and what it writes is `JSON.stringify` of the loaded local configuration |
| `Action.DryRunSameDifferences` | src/action.js:89-95 | a dry run returns the same result and loads the same configurations as a real run |
| `Action.RunWithoutPublishedConfigAddsAll` | src/action.js:158-166 | with no object at the destination and a fresh action's `{}`, every key of the local configuration is reported added, in order, and nothing is removed or updated |
| `Action.RunPublishesIntoCheckedBucket` | src/action.js:84-93 | the run only writes after the bucket check passed, so the write cannot hit a missing bucket |
| `Action.RunExampleOutcome` | tests/action.test.js:59-79 | on the test's store and file, from any starting configurations (the test presets both, and both loads overwrite them), the run reports key2 added and key1 removed and publishes the new configuration |
| `Action.RunExample` | tests/action.test.js:59-79 | the same test driven through `Create` and `Run` on a fresh store: that result, and exactly one write to the destination |
| `ConfigDiff.AddedMember` | src/action.js:125-130 | an entry is in `added` exactly when it is a pair of the new configuration whose key the old one lacks |
| `ConfigDiff.UpdatedMember` | src/action.js:131-137 | an update is in `updated` exactly when the key holds `newValue` on the new side and `oldValue` on the old side, and the two are not `===` |
| `ConfigDiff.RemovedMember` | src/action.js:141-147 | an entry is in `removed` exactly when it is a pair of the old configuration whose key the new one lacks |
| `ConfigDiff.KeyClassification` | src/action.js:124-148 | per key: added iff only the new side has it; updated iff both have it with values not `===`; removed iff only the old side has it |
| `ConfigDiff.DiffPartitionsKeys` | src/action.js:124-148 | every key of either side is added, updated, removed or unchanged, in no two lists at once, and an unchanged key is in no list |
| `ConfigDiff.AddedOrder` | src/action.js:125-130 | `added` follows the new configuration's iteration order |
| `ConfigDiff.UpdatedOrder` | src/action.js:125-137 | `updated` follows the new configuration's iteration order |
| `ConfigDiff.RemovedOrder` | src/action.js:141-147 | `removed` follows the old configuration's iteration order |
| `ConfigDiff.DiffListsHaveDistinctKeys` | src/action.js:117-151 | no key appears twice in any one list |
| `ConfigDiff.DiffWithItselfIsEmpty` | src/action.js:117-151 | a NaN-free configuration diffed against itself gives three empty lists |
| `ConfigDiff.DiffWithItselfReportsNaN` | src/action.js:131 | a NaN value diffed against itself is reported updated, since `NaN !== NaN` |
| `ConfigDiff.AddedAllWhenNew` | src/action.js:125-138 | when the old side has none of the new keys, `added` is the whole new configuration in order and `updated` is empty |
| `ConfigDiff.RemovedAllWhenGone` | src/action.js:141-148 | when the new side has none of the old keys, `removed` is the whole old configuration in order |
| `ConfigDiff.DiffOfDisjointConfigs` | src/action.js:124-148 | for configurations with no common key, every new key is added, every old key removed, and `updated` is empty |
| `ConfigDiff.DiffFromEmpty` | src/action.js:124-148 | against `{}` every key of the new configuration is added |
| `ConfigDiff.SeparateCompositesAreUpdated` | src/action.js:131 | a key holding composites of different identity on the two sides is updated, whatever their contents |
| `ConfigDiff.DiffExample` | tests/action.test.js:131-144 | old `{key1: value1}` and new `{key2: value2, key1: value1-updated}` give key2 added, key1 updated, nothing removed |
| `Configuration.StrictEqualsProperties` | src/action.js:131 | `===` is symmetric, reflexive except on NaN, and implies equality of the modelled values |
| `Configuration.StrictEqualsDistinguishes` | src/action.js:131 | values of different kinds, and composites of different identity, are never `===` |
| `Errors.MessageOfEmptyBucketInput` | tests/action.test.js:177-180 | an empty bucket's error reads `Input 'bucket' is empty.` |
| `Errors.MessageOfMissingBucket` | tests/action.test.js:163-168 | a missing bucket's error reads `Bucket 'test-bucket' not exists.` |
| `Errors.MessagesOfTestedFormatErrors` | tests/utils/files.test.js:25-39 | the unsupported-extension errors read `Unsupported file format: xml` and `Unsupported file format: config` |
| `ConfigParser.TokenizerFor` | src/parser/index.js:30-41 | succeeds exactly for `toml`, `yaml` and `json`, giving the tokenizer named by that format; any other name fails with `Unsupported format: <format>` |
| `ConfigParser.TokenizerForFormatOf` | src/parser/index.js:31-37 | selecting by a tokenizer's own format name gives back that tokenizer |
| `ConfigParser.NewParser` | src/parser/index.js:19-22 | construction succeeds exactly for the three names, storing the name and binding its tokenizer; otherwise it fails at once with `Unsupported format: <format>` |
| `ConfigParser.GetTokenizerReturnsBound` | src/parser/index.js:30-41 | `getTokenizer()` on a constructed parser returns the tokenizer bound at construction |
| `ConfigParser.ParserDelegatesToBoundTokenizer` | src/parser/index.js:49-61 | `parse` and `stringify` depend only on the bound tokenizer's functions |
| `ConfigParser.ParseFailsWithLibraryMessage` | src/parser/index.js:49-51 | a parse fails exactly when the bound library rejects the text, with the library's message, and otherwise returns the library's result |
| `Files.ReadContent` | src/utils/files.js:10-18 | returns the file's text when it exists; otherwise fails with `File <path> not exists.` |
| `Files.Extension` | tests/utils/files.test.js:31-39 | the result has no dot; it is the whole name when the name has no dot, and otherwise the text after the last dot |
| `Files.ExtensionAfterLastDot` | tests/utils/files.test.js:31-33 | whatever comes before the last dot, the extension is what follows it |
| `Files.FormatOfExtension` | tests/utils/files.test.js:5-29 | succeeds exactly on `toml`, `yaml`, `yml`, `json` and `ejson`; the three format names map to themselves, `yml` to `yaml` and `ejson` to `json`; anything else fails with `Unsupported file format: <ext>` |
| `Files.ExtractFormat` | tests/utils/files.test.js:5-39 | succeeds exactly when the name's extension is in the table, giving that extension's format (`yml` as `yaml`, `ejson` as `json`); otherwise fails naming the extension |
| `Files.ExtractFormatOfSuffix` | tests/utils/files.test.js:5-33 | a name ending in a known extension resolves through the table, however many dots come before |
| `Files.ExtractFormatWithoutDot` | tests/utils/files.test.js:35-39 | a dotless name fails and names the whole name as the extension |
| `Files.ExtractFormatDottedExamples` | tests/utils/files.test.js:13-33 | `config.yml` is yaml and `archive.tar.gz.json` is json |
| `Files.ExtractFormatUnsupportedExample` | tests/utils/files.test.js:25-29 | `config.xml` fails with `Unsupported file format: xml` |
| `Files.ExtractFormatDotlessExample` | tests/utils/files.test.js:35-39 | `config` fails with `Unsupported file format: config` |
| `S3.Client.BucketExists` | src/aws/s3.js:33-48 | true exactly when the bucket exists; "not found" is false, not an error |
| `S3.Client.FileExists` | src/aws/s3.js:57-73 | true exactly when the object exists; "not found" is false, not an error |
| `S3.Client.DownloadFile` | src/aws/s3.js:108-122 | the object's text, or a "no such key" error when it does not exist |
| `S3.Client.CreateFile` | src/aws/s3.js:83-91 | replaces the whole object and logs one write; into a missing bucket it fails and changes nothing |

## Left out

- The real S3 client is left out: the AWS SDK transport, credentials, region and streamed-body concatenation. The store is the in-memory fake in `S3`, passed to `Action.Action.Create` in place of the client the constructor builds from the credentials.
- Store failures other than "not found" are left out: network errors, access denied and throttling. So the propagation of such errors out of the existence checks is not modelled. The only store errors in the model are "no such key" on download and "no such bucket" on write.
- The behaviour of smol-toml, yaml and `JSON` is left out. Their `parse` and `stringify` are opaque function values. A tokenizer that returns something other than a plain object with distinct keys is not modelled.
- The `is-empty-input` library is a predicate parameter. Three facts are assumed of it: `''` is empty; `false` is not empty; and no non-empty string is empty, whitespace-only strings included. The tests show only particular non-empty strings, so the last assumption is broader than they are.
- Constructing an action with `dryRun: true` depends on the library's answer for `true`. No test fixes that answer, so the model does not promise that a dry-run action can be built; `Action.ConstructionOfTestInputs` takes it as a hypothesis.
- `Action.RunExample` drives `Create` and `Run` from the freshly built action's `{}` configurations rather than presetting them as the test does. `Action.RunExampleOutcome` states the same outcome for any starting configurations.
- `ConfigDiff.SeparateCompositesAreUpdated`: two separately parsed composites are given as having different identities. The model does not derive this from the two parses, because parsing is opaque.
- Host plumbing in `index.js` is left out: reading inputs, applying defaults, printing the report and `core.setFailed`. The local file system is an in-memory map.
- `async`/`await` is left out. The steps of `run` are sequential calls, and there is no concurrency.
- JavaScript object quirks are left out:
  - `in` also sees inherited names such as `toString`;
  - `for...in` lists integer-like keys first;
  - an inputs object may carry keys other than the seven, or lack a key other than `awsRegion`.
- Numbers are modelled as reals plus NaN. Floating-point rounding, infinities and the sign of zero are not modelled.
- Lower-casing of extensions is not modelled, because the tests of `extractFormat` do not show it.
- `format` and `tokenizer` never change after a parser is built. In the model a `Parser` is an immutable datatype value, so this holds by construction and has no lemma of its own.
