/**
 * The object store behind the S3 client, as an in-memory fake: the buckets
 * that exist, the objects they hold, and a log of the writes made through
 * `createFile`. The existence checks answer with plain booleans, as the
 * client does when the service reports "not found".
 */
module S3 {
  import opened Wrappers
  import opened Errors

  /** One `createFile` call: bucket, key and the text written. */
  datatype Write = Write(bucket: string, key: string, body: string)

  class Client {
    var buckets: set<string>
    var objects: map<(string, string), string>
    var writes: seq<Write>

    /** Every object lives in a bucket that exists. */
    ghost predicate Valid()
      reads this
    {
      forall o | o in objects :: o.0 in buckets
    }

    constructor (buckets: set<string>, objects: map<(string, string), string>)
      requires forall o | o in objects :: o.0 in buckets
      ensures Valid()
      ensures this.buckets == buckets && this.objects == objects && writes == []
    {
      this.buckets := buckets;
      this.objects := objects;
      writes := [];
    }

    /** `bucketExists(bucket)`: true for an existing bucket, false ("not found") otherwise. */
    method BucketExists(bucket: string) returns (exists_: bool)
      ensures exists_ <==> bucket in buckets
    {
      exists_ := bucket in buckets;
    }

    /** `fileExists(bucket, key)`: true for an existing object, false ("not found") otherwise. */
    method FileExists(bucket: string, key: string) returns (exists_: bool)
      requires Valid()
      ensures exists_ <==> (bucket, key) in objects
      ensures exists_ ==> bucket in buckets
    {
      exists_ := (bucket, key) in objects;
    }

    /** `downloadFile(bucket, key)`: the object's text, or the service's "no such key" error. */
    method DownloadFile(bucket: string, key: string) returns (r: Result<string, Error>)
      ensures r.Success? <==> (bucket, key) in objects
      ensures r.Success? ==> r.value == objects[(bucket, key)]
      ensures r.Failure? ==> r.error == NoSuchKey(bucket, key)
    {
      if (bucket, key) in objects {
        r := Success(objects[(bucket, key)]);
      } else {
        r := Failure(NoSuchKey(bucket, key));
      }
    }

    /**
     * `createFile(bucket, key, body)`: replaces the whole object and logs the
     * write; into a bucket that does not exist it fails and changes nothing.
     */
    method CreateFile(bucket: string, key: string, body: string) returns (r: Outcome<Error>)
      requires Valid()
      modifies this
      ensures Valid()
      ensures buckets == old(buckets)
      ensures r == (if bucket in buckets then Pass else Fail(NoSuchBucket(bucket)))
      ensures r.Pass? ==> objects == old(objects)[(bucket, key) := body] && writes == old(writes) + [Write(bucket, key, body)]
      ensures r.Fail? ==> objects == old(objects) && writes == old(writes)
    {
      if bucket in buckets {
        objects := objects[(bucket, key) := body];
        writes := writes + [Write(bucket, key, body)];
        r := Pass;
      } else {
        r := Fail(NoSuchBucket(bucket));
      }
    }
  }
}
