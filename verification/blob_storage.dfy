/** The object store the drive keeps file contents in (one bucket), seen through the
    three calls the controllers make: upload, remove and create a signed URL. Each call
    takes a flag saying whether the remote service answered without error. */
module BlobStorage {
  import opened Outcomes

  /** Lifetime in seconds of every signed URL the controllers ask for (the default of
      `SIGNED_URL_EXPIRES`). */
  const SignedExpires: int := 3600

  /** A time-limited retrieval URL for one object. */
  datatype SignedUrl = SignedUrl(key: string, expiresIn: int)

  /** A call that changes the bucket, as a record of what the controllers asked for. */
  datatype Call = PutObject(key: string, contentType: string) | RemoveObjects(keys: set<string>)

  class BlobStore {
    var objects: set<string>
    ghost var calls: seq<Call>

    constructor ()
      ensures objects == {} && calls == []
    {
      objects := {};
      calls := [];
    }

    /** `upload(key, stream, { upsert: false, contentType })`: never replaces an
        existing object. */
    method Upload(key: string, contentType: string, succeeds: bool) returns (ok: bool)
      modifies this
      ensures ok <==> succeeds && key !in old(objects)
      ensures objects == if ok then old(objects) + {key} else old(objects)
      ensures calls == old(calls) + [PutObject(key, contentType)]
    {
      ok := succeeds && key !in objects;
      if ok {
        objects := objects + {key};
      }
      calls := calls + [PutObject(key, contentType)];
    }

    /** `remove(keys)`: on an error the bucket is left as it was. */
    method Remove(keys: set<string>, succeeds: bool) returns (ok: bool)
      modifies this
      ensures ok == succeeds
      ensures objects == if ok then old(objects) - keys else old(objects)
      ensures calls == old(calls) + [RemoveObjects(keys)]
    {
      ok := succeeds;
      if ok {
        objects := objects - keys;
      }
      calls := calls + [RemoveObjects(keys)];
    }
  }

  /** `createSignedUrl(key, ttl)`: a URL for `key` valid `ttl` seconds, or nothing when
      the service reports an error. It changes nothing in the bucket. */
  method CreateSignedUrl(key: string, ttl: int, succeeds: bool) returns (url: Option<SignedUrl>)
    ensures url.Some? <==> succeeds
    ensures url.Some? ==> url.value.key == key && url.value.expiresIn == ttl
  {
    if succeeds {
      url := Some(SignedUrl(key, ttl));
    } else {
      url := None;
    }
  }
}
