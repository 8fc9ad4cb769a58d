/**
 * An abstract object-storage backend as the proxy uses it: buckets of
 * objects under flat string keys. Transport, permission and throttling
 * failures are not modelled; instead every call takes a `fault` that the
 * environment chooses, and a call with a fault fails with that error.
 */
module S3 {
  import opened Wrappers
  import opened GoStrings

  /** A backend error, known to the proxy only through its text (`err.Error()`). */
  datatype Error = Error(text: seq<Byte>)

  datatype Object = Object(content: seq<Byte>, contentType: string, metadata: map<string, string>)

  datatype HeadObjectOutput = HeadObjectOutput(contentLength: nat, contentType: string, metadata: map<string, string>)

  /** Bucket name to key to object. */
  type Store = map<string, map<string, Object>>

  const NoSuchBucket := Error(Bytes("NoSuchBucket"))
  const NotFound := Error(Bytes("NotFound"))

  /** The object under `key` in `bucket`, or the error a read of it reports. */
  function Lookup(store: Store, bucket: string, key: string, fault: Option<Error>): Result<Object, Error> {
    if fault.Some? then Failure(fault.value)
    else if bucket !in store then Failure(NoSuchBucket)
    else if key !in store[bucket] then Failure(NotFound)
    else Success(store[bucket][key])
  }

  /** `HeadObject`: an output and no error for a readable object, no output and an error otherwise. */
  function Head(store: Store, bucket: string, key: string, fault: Option<Error>): (Option<HeadObjectOutput>, Option<Error>) {
    match Lookup(store, bucket, key, fault)
    case Success(obj) => (Some(HeadObjectOutput(|obj.content|, obj.contentType, obj.metadata)), None)
    case Failure(err) => (None, Some(err))
  }

  /** `GetObject`: the whole content of a readable object. */
  function Get(store: Store, bucket: string, key: string, fault: Option<Error>): Result<seq<Byte>, Error> {
    match Lookup(store, bucket, key, fault)
    case Success(obj) => Success(obj.content)
    case Failure(err) => Failure(err)
  }

  /** The error a store into `bucket` reports, if any. */
  function PutError(store: Store, bucket: string, fault: Option<Error>): Option<Error> {
    if fault.Some? then fault
    else if bucket !in store then Some(NoSuchBucket)
    else None
  }

  /** The store after `PutObject`: the object replaces any earlier one under `key`. */
  function Put(store: Store, bucket: string, key: string, obj: Object, fault: Option<Error>): Store {
    if PutError(store, bucket, fault).None? then store[bucket := store[bucket][key := obj]] else store
  }

  /** The backend service as the proxy's client reaches it. */
  class Service {
    var buckets: Store

    constructor (buckets: Store)
      ensures this.buckets == buckets
    {
      this.buckets := buckets;
    }

    // HeadObject and GetObject stand in for the backend's read calls; their
    // contracts only tie them to Head and Get, which is where the model's
    // properties are stated.
    method HeadObject(bucket: string, key: string, fault: Option<Error>) returns (output: Option<HeadObjectOutput>, err: Option<Error>)
      ensures (output, err) == Head(buckets, bucket, key, fault)
    {
      var found := Lookup(buckets, bucket, key, fault);
      if found.Success? {
        output, err := Some(HeadObjectOutput(|found.value.content|, found.value.contentType, found.value.metadata)), None;
      } else {
        output, err := None, Some(found.error);
      }
    }

    method GetObject(bucket: string, key: string, fault: Option<Error>) returns (result: Result<seq<Byte>, Error>)
      ensures result == Get(buckets, bucket, key, fault)
    {
      var found := Lookup(buckets, bucket, key, fault);
      result := if found.Success? then Success(found.value.content) else Failure(found.error);
    }

    method PutObject(bucket: string, key: string, obj: Object, fault: Option<Error>) returns (err: Option<Error>)
      modifies this
      ensures err == PutError(old(buckets), bucket, fault)
      ensures buckets == Put(old(buckets), bucket, key, obj, fault)
    {
      err := PutError(buckets, bucket, fault);
      if err.None? {
        buckets := buckets[bucket := buckets[bucket][key := obj]];
      }
    }
  }
}
