/** The errors the reconciliation can raise, each with the message the source gives it. */
module Errors {

  datatype Error =
    | EmptyInput(name: string)               // validateInputs
    | UnsupportedFileFormat(ext: string)     // files.extractFormat
    | UnsupportedFormat(format: string)      // Parser constructor
    | BucketNotExists(bucket: string)        // verifyIfBucketExists
    | FileNotExists(path: string)            // files.readContent
    | ParseError(message: string)            // a tokenizer's parse
    | NoSuchKey(bucket: string, key: string) // store: download of a missing object
    | NoSuchBucket(bucket: string)           // store: write into a missing bucket

  /** The text of the `Error` the source throws. */
  function Message(e: Error): string {
    match e
    case EmptyInput(name) => "Input '" + name + "' is empty."
    case UnsupportedFileFormat(ext) => "Unsupported file format: " + ext
    case UnsupportedFormat(format) => "Unsupported format: " + format
    case BucketNotExists(bucket) => "Bucket '" + bucket + "' not exists."
    case FileNotExists(path) => "File " + path + " not exists."
    case ParseError(message) => message
    case NoSuchKey(_, _) => "The specified key does not exist."
    case NoSuchBucket(_) => "The specified bucket does not exist."
  }

  /** The message the test of an empty input expects. */
  lemma MessageOfEmptyBucketInput()
    ensures Message(EmptyInput("bucket")) == "Input 'bucket' is empty."
  {
  }

  /** The message the test of a missing bucket expects. */
  lemma MessageOfMissingBucket()
    ensures Message(BucketNotExists("test-bucket")) == "Bucket 'test-bucket' not exists."
  {
  }

  /** The messages the tests of `extractFormat` expect. */
  lemma MessagesOfTestedFormatErrors()
    ensures Message(UnsupportedFileFormat("xml")) == "Unsupported file format: xml"
    ensures Message(UnsupportedFileFormat("config")) == "Unsupported file format: config"
  {
  }
}
