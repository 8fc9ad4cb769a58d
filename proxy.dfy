/**
 * The request-translation core of the S3 HTTP proxy (proxy/http_proxy.go):
 * parsing the header-mapping configuration, deriving object keys from
 * request paths, dispatching on the HTTP method, turning request headers
 * into object metadata, and mapping backend outcomes to HTTP responses.
 */
module Proxy {
  import opened Wrappers
  import opened GoStrings
  import opened Http
  import S3

  /** The proxy's configuration; it is never changed after construction. */
  datatype StorageProxy = StorageProxy(bucketName: string, defaultPrefix: string, headerMap: map<string, string>)

  // ---------------------------------------------------------------------
  // Header-mapping configuration: "h1=m1,h2=m2"
  // ---------------------------------------------------------------------

  /** A configuration piece is kept only if it splits on '=' into exactly two parts. */
  function PairOf(piece: string): Option<(string, string)> {
    var parts := Split(piece, '=');
    if |parts| == 2 then Some((parts[0], parts[1])) else None
  }

  /** The piece is a well-formed pair whose header name is `name`. */
  predicate Defines(piece: string, name: string) {
    PairOf(piece).Some? && PairOf(piece).value.0 == name
  }

  /** The map built by inserting the kept pairs of `pieces` in order. */
  function HeaderMapOf(pieces: seq<string>): map<string, string>
    decreases |pieces|
  {
    if pieces == [] then map[]
    else
      var earlier := HeaderMapOf(pieces[..|pieces| - 1]);
      match PairOf(pieces[|pieces| - 1])
      case Some((name, target)) => earlier[name := target]
      case None => earlier
  }

  /** A piece is kept as (l, r) exactly when it reads l + "=" + r with no other '='. */
  lemma PairOfWellFormed(piece: string, l: string, r: string)
    ensures PairOf(piece) == Some((l, r)) <==> piece == l + "=" + r && '=' !in l && '=' !in r
  {
    if PairOf(piece) == Some((l, r)) {
      JoinSplit(piece, '=');
      assert Split(piece, '=') == [l, r];
    }
    if piece == l + "=" + r && '=' !in l && '=' !in r {
      SplitJoin([l, r], '=');
      assert Join([l, r], '=') == piece;
    }
  }

  /** A piece is dropped exactly when it has no '=' or more than one. */
  lemma PairOfDropped(piece: string)
    ensures PairOf(piece).None? <==> multiset(piece)['='] != 1
  {
  }

  /** A header name is configured exactly when some kept piece names it. */
  lemma {:induction false} HeaderMapKeys(pieces: seq<string>, name: string)
    ensures name in HeaderMapOf(pieces) <==> exists i :: 0 <= i < |pieces| && Defines(pieces[i], name)
    decreases |pieces|
  {
    if pieces != [] {
      var last := |pieces| - 1;
      var init := pieces[..last];
      HeaderMapKeys(init, name);
      if name in HeaderMapOf(pieces) && !Defines(pieces[last], name) {
        var i :| 0 <= i < |init| && Defines(init[i], name);
        assert pieces[i] == init[i];
      }
      if exists i :: 0 <= i < |pieces| && Defines(pieces[i], name) {
        var i :| 0 <= i < |pieces| && Defines(pieces[i], name);
        if i < last {
          assert init[i] == pieces[i];
        }
      }
    }
  }

  /** When a header name is configured more than once, the last kept piece wins. */
  lemma {:induction false} HeaderMapLaterWins(pieces: seq<string>, i: nat)
    requires i < |pieces| && PairOf(pieces[i]).Some?
    requires forall j :: i < j < |pieces| ==> !Defines(pieces[j], PairOf(pieces[i]).value.0)
    ensures PairOf(pieces[i]).value.0 in HeaderMapOf(pieces)
    ensures HeaderMapOf(pieces)[PairOf(pieces[i]).value.0] == PairOf(pieces[i]).value.1
    decreases |pieces|
  {
    var last := |pieces| - 1;
    if i < last {
      var init := pieces[..last];
      assert init[i] == pieces[i];
      forall j | i < j < |init|
        ensures !Defines(init[j], PairOf(init[i]).value.0)
      {
        assert init[j] == pieces[j];
      }
      HeaderMapLaterWins(init, i);
      assert !Defines(pieces[last], PairOf(pieces[i]).value.0);
    }
  }

  /** An empty configuration string configures no header. */
  lemma EmptyMapping()
    ensures HeaderMapOf(Split("", ',')) == map[]
  {
  }

  /** `NewStorageProxy`: the loop over the comma-separated pieces of `headerMapping`. */
  method NewStorageProxy(bucketName: string, defaultPrefix: string, headerMapping: string) returns (proxy: StorageProxy)
    ensures proxy.bucketName == bucketName && proxy.defaultPrefix == defaultPrefix
    ensures proxy.headerMap == HeaderMapOf(Split(headerMapping, ','))
  {
    var headerMap: map<string, string> := map[];
    var pieces := Split(headerMapping, ',');
    for i := 0 to |pieces|
      invariant headerMap == HeaderMapOf(pieces[..i])
    {
      var pair := Split(pieces[i], '=');
      if |pair| == 2 {
        headerMap := headerMap[pair[0] := pair[1]];
      }
      assert pieces[..i + 1][..i] == pieces[..i];
    }
    assert pieces[..|pieces|] == pieces;
    proxy := StorageProxy(bucketName, defaultPrefix, headerMap);
  }

  // ---------------------------------------------------------------------
  // Object keys
  // ---------------------------------------------------------------------

  /** `objectName`: the backend key for a request name is the prefix followed by the name. */
  function ObjectName(proxy: StorageProxy, name: string): (key: string)
    ensures |key| == |proxy.defaultPrefix| + |name|
    ensures key[..|proxy.defaultPrefix|] == proxy.defaultPrefix
    ensures key[|proxy.defaultPrefix|..] == name
  {
    proxy.defaultPrefix + name
  }

  /** Distinct names under one proxy give distinct keys, and the empty name gives the prefix. */
  lemma ObjectNameInjective(proxy: StorageProxy, a: string, b: string)
    ensures ObjectName(proxy, a) == ObjectName(proxy, b) <==> a == b
    ensures ObjectName(proxy, "") == proxy.defaultPrefix
  {
  }

  /** Two proxies whose prefixes are not prefixes of each other never produce the same key. */
  lemma PrefixIsolation(p: StorageProxy, q: StorageProxy, a: string, b: string)
    requires !(p.defaultPrefix <= q.defaultPrefix) && !(q.defaultPrefix <= p.defaultPrefix)
    ensures ObjectName(p, a) != ObjectName(q, b)
  {
  }

  /**
   * Conversely, when one prefix extends another the two proxies do collide:
   * the shorter prefix with the rest of the longer one prepended to a name
   * gives the longer proxy's key for that name.
   */
  lemma PrefixOverlapCollides(p: StorageProxy, q: StorageProxy, b: string)
    requires p.defaultPrefix <= q.defaultPrefix
    ensures ObjectName(p, q.defaultPrefix[|p.defaultPrefix|..] + b) == ObjectName(q, b)
  {
    assert q.defaultPrefix == p.defaultPrefix + q.defaultPrefix[|p.defaultPrefix|..];
  }

  /** Prefixes alone do not isolate proxies: "a" + "bc" and "ab" + "c" are the same key. */
  lemma PrefixesCollide()
    ensures ObjectName(StorageProxy("b", "a", map[]), "bc") == ObjectName(StorageProxy("b", "ab", map[]), "c")
  {
  }

  /** The handler's key: one leading '/' of a non-empty path is removed. */
  function StripLeadingSlash(path: string): (name: string)
    requires |path| > 0
    ensures path == "/" + name || (path[0] != '/' && name == path)
  {
    if path[0] == '/' then path[1..] else path
  }

  /** "/" + p names p, whatever p starts with (so "//" + p keeps one slash), and so does p itself when it has no leading '/'. */
  lemma StripLeadingSlashOnce(p: string)
    ensures StripLeadingSlash("/" + p) == p
    ensures p != [] && p[0] != '/' ==> StripLeadingSlash(p) == p
    ensures StripLeadingSlash("//" + p) == "/" + p
  {
  }

  // ---------------------------------------------------------------------
  // Method dispatch
  // ---------------------------------------------------------------------

  datatype Operation = Download | CheckExists | Upload | Ignore

  /** The handler's choice of operation for an HTTP method. */
  function Dispatch(verb: string): (op: Operation)
    ensures op == Download <==> verb == "GET"
    ensures op == CheckExists <==> verb == "HEAD"
    ensures op == Upload <==> verb == "POST" || verb == "PUT"
    ensures op == Ignore <==> verb != "GET" && verb != "HEAD" && verb != "POST" && verb != "PUT"
  {
    if verb == "GET" then Download
    else if verb == "HEAD" then CheckExists
    else if verb == "POST" then Upload
    else if verb == "PUT" then Upload
    else Ignore
  }

  // ---------------------------------------------------------------------
  // Header-to-metadata mapping
  // ---------------------------------------------------------------------

  /** The metadata name a request header is forwarded under, if any. */
  function Target(headerMap: map<string, string>, name: string): Option<string> {
    var lower := ToLower(name);
    if lower in headerMap then Some(headerMap[lower]) else None
  }

  /**
   * `metadata` is what the upload loop can build from `header`: every entry
   * is the first value of some header forwarded under that entry's name, and
   * every forwarded header's target is present. Go visits the header map in
   * an unspecified order, so which header wins a shared target is not fixed.
   */
  ghost predicate IsMetadata(metadata: map<string, string>, headerMap: map<string, string>, header: Header)
    requires WellFormed(header)
  {
    && (forall m :: m in metadata ==>
          exists h :: h in header && Target(headerMap, h) == Some(m) && metadata[m] == header[h][0])
    && (forall h :: h in header && Target(headerMap, h).Some? ==> Target(headerMap, h).value in metadata)
  }

  /** No two request headers are forwarded under the same metadata name. */
  predicate DistinctTargets(headerMap: map<string, string>, header: Header) {
    forall h1, h2 :: h1 in header && h2 in header && h1 != h2 && Target(headerMap, h1).Some? ==>
      Target(headerMap, h1) != Target(headerMap, h2)
  }

  /** The metadata loop of `uploadBlob`, visiting the headers in an arbitrary order. */
  method Metadata(headerMap: map<string, string>, header: Header) returns (metadata: map<string, string>)
    requires WellFormed(header)
    ensures IsMetadata(metadata, headerMap, header)
  {
    metadata := map[];
    var unseen := header.Keys;
    while unseen != {}
      invariant unseen <= header.Keys
      invariant forall m :: m in metadata ==>
        exists h :: h in header && h !in unseen && Target(headerMap, h) == Some(m) && metadata[m] == header[h][0]
      invariant forall h :: h in header && h !in unseen && Target(headerMap, h).Some? ==>
        Target(headerMap, h).value in metadata
      decreases unseen
    {
      var k :| k in unseen;
      unseen := unseen - {k};
      var lower := ToLower(k);
      if lower in headerMap {
        metadata := metadata[headerMap[lower] := header[k][0]];
      }
    }
  }

  /** Without shared targets, each forwarded header's first value is stored under its target. */
  lemma MetadataValues(metadata: map<string, string>, headerMap: map<string, string>, header: Header, h: string)
    requires WellFormed(header) && IsMetadata(metadata, headerMap, header) && DistinctTargets(headerMap, header)
    requires h in header && Target(headerMap, h).Some?
    ensures Target(headerMap, h).value in metadata
    ensures metadata[Target(headerMap, h).value] == header[h][0]
  {
  }

  /** Without shared targets, the metadata is determined by the request headers. */
  lemma MetadataDeterministic(md1: map<string, string>, md2: map<string, string>, headerMap: map<string, string>, header: Header)
    requires WellFormed(header) && DistinctTargets(headerMap, header)
    requires IsMetadata(md1, headerMap, header) && IsMetadata(md2, headerMap, header)
    ensures md1 == md2
  {
  }

  /** A configured name with an upper-case letter never matches a lower-cased header name. */
  lemma UpperCaseKeyNeverMatches(headerMap: map<string, string>, key: string, name: string)
    requires key in headerMap && HasUpper(key)
    ensures Target(headerMap - {key}, name) == Target(headerMap, name)
  {
  }

  /** ... so such an entry has no effect on the metadata of any request. */
  lemma UpperCaseKeyIgnored(metadata: map<string, string>, headerMap: map<string, string>, key: string, header: Header)
    requires key in headerMap && HasUpper(key) && WellFormed(header)
    ensures IsMetadata(metadata, headerMap - {key}, header) <==> IsMetadata(metadata, headerMap, header)
  {
  }

  /** A configuration made of one pair l=r (no ',' or '=' inside l and r) configures exactly l -> r. */
  lemma SinglePairMapping(l: string, r: string)
    requires '=' !in l && '=' !in r && ',' !in l && ',' !in r
    ensures HeaderMapOf(Split(l + "=" + r, ',')) == map[l := r]
  {
    var piece := l + "=" + r;
    assert ',' !in piece by {
      assert forall i :: 0 <= i < |piece| ==> piece[i] == (if i < |l| then l[i] else if i == |l| then '=' else r[i - |l| - 1]);
    }
    SplitWithout(piece, ',');
    PairOfWellFormed(piece, l, r);
    assert [piece][..0] == [];
  }

  /** "x-meta-foo=foo" configures x-meta-foo -> foo. */
  lemma LowerCaseExampleMapping()
    ensures HeaderMapOf(Split("x-meta-foo=foo", ',')) == map["x-meta-foo" := "foo"]
  {
    assert "x-meta-foo=foo" == "x-meta-foo" + "=" + "foo";
    SinglePairMapping("x-meta-foo", "foo");
  }

  /** "X-Meta-Foo=foo" configures X-Meta-Foo -> foo: the key keeps its case. */
  lemma UpperCaseExampleMapping()
    ensures HeaderMapOf(Split("X-Meta-Foo=foo", ',')) == map["X-Meta-Foo" := "foo"]
  {
    assert "X-Meta-Foo=foo" == "X-Meta-Foo" + "=" + "foo";
    SinglePairMapping("X-Meta-Foo", "foo");
  }

  /** Under x-meta-foo -> foo, the header X-Meta-Foo: bar is stored as foo -> bar and X-Other is dropped. */
  lemma ForwardsConfiguredHeader(metadata: map<string, string>)
    requires IsMetadata(metadata, map["x-meta-foo" := "foo"], map["X-Meta-Foo" := ["bar"], "X-Other" := ["baz"]])
    ensures metadata == map["foo" := "bar"]
  {
    var header: Header := map["X-Meta-Foo" := ["bar"], "X-Other" := ["baz"]];
    var headerMap := map["x-meta-foo" := "foo"];
    assert Target(headerMap, "X-Meta-Foo") == Some("foo") by {
      assert ToLower("X-Meta-Foo") == "x-meta-foo";
    }
    assert Target(headerMap, "X-Other") == None by {
      assert ToLower("X-Other")[0] == 'x' && |ToLower("X-Other")| == 7;
    }
    assert header.Keys == {"X-Meta-Foo", "X-Other"};
    assert DistinctTargets(headerMap, header);
    MetadataValues(metadata, headerMap, header, "X-Meta-Foo");
  }

  /** Under X-Meta-Foo -> foo nothing is forwarded, not even the header X-Meta-Foo itself. */
  lemma UpperCaseConfigurationForwardsNothing(metadata: map<string, string>)
    requires IsMetadata(metadata, map["X-Meta-Foo" := "foo"], map["X-Meta-Foo" := ["bar"]])
    ensures metadata == map[]
  {
    var header: Header := map["X-Meta-Foo" := ["bar"]];
    var headerMap := map["X-Meta-Foo" := "foo"];
    assert IsUpper("X-Meta-Foo"[0]);
    UpperCaseKeyIgnored(metadata, headerMap, "X-Meta-Foo", header);
    assert headerMap - {"X-Meta-Foo"} == map[];
  }

  /** The Content-Type header's first value, or "" when absent, becomes the object's content type. */
  function ContentType(header: Header): (contentType: string)
    ensures "Content-Type" in header && |header["Content-Type"]| > 0 ==> contentType == header["Content-Type"][0]
    ensures !("Content-Type" in header && |header["Content-Type"]| > 0) ==> contentType == ""
  {
    Get(header, "Content-Type")
  }

  // ---------------------------------------------------------------------
  // Backend outcomes as HTTP responses
  // ---------------------------------------------------------------------

  /** `downloadBlob`: the object's bytes on success, nothing written on failure. */
  function DownloadResponse(prior: Response, got: Result<seq<Byte>, S3.Error>): Response {
    match got
    case Success(content) => prior.WithWrite(content)
    case Failure(_) => prior
  }

  /** `checkBlobExists`: 200 for an output without an error, 404 otherwise. */
  function ExistsResponse(prior: Response, head: (Option<S3.HeadObjectOutput>, Option<S3.Error>)): Response {
    prior.WithHeader(if head.0.None? || head.1.Some? then StatusNotFound else StatusOK)
  }

  /** The body of a failed upload: a fixed message followed by the error's text. */
  function FailureBody(err: S3.Error): (body: seq<Byte>)
    ensures |body| > |err.text|
    ensures body[|body| - |err.text|..] == err.text
  {
    Bytes("Failed write cache body! ") + err.text
  }

  /** `uploadBlob`: 201 on success, 400 and `FailureBody` on failure. */
  function UploadResponse(prior: Response, err: Option<S3.Error>): Response {
    match err
    case None => prior.WithHeader(StatusCreated)
    case Some(e) => prior.WithHeader(StatusBadRequest).WithWrite(FailureBody(e))
  }

  /** On a fresh response a download writes status 200 and the content, or nothing at all. */
  lemma DownloadOutcome(got: Result<seq<Byte>, S3.Error>)
    ensures got.Success? ==> DownloadResponse(Unwritten, got) == Response(Some(StatusOK), got.value)
    ensures got.Failure? ==> DownloadResponse(Unwritten, got) == Unwritten
  {
  }

  /** On a fresh response the existence check writes only a status: 200 exactly for an output without an error, else 404. */
  lemma ExistsOutcome(head: (Option<S3.HeadObjectOutput>, Option<S3.Error>))
    ensures ExistsResponse(Unwritten, head).body == []
    ensures ExistsResponse(Unwritten, head).status == Some(StatusOK) <==> head.0.Some? && head.1.None?
    ensures ExistsResponse(Unwritten, head).status == Some(StatusOK) || ExistsResponse(Unwritten, head).status == Some(StatusNotFound)
  {
  }

  /** On a fresh response an upload writes 201 and no body exactly on success, and 400 with the error's text otherwise. */
  lemma UploadOutcome(err: Option<S3.Error>)
    ensures UploadResponse(Unwritten, err).status == Some(StatusCreated) <==> err.None?
    ensures err.None? ==> UploadResponse(Unwritten, err).body == []
    ensures err.Some? ==> UploadResponse(Unwritten, err) == Response(Some(StatusBadRequest), FailureBody(err.value))
  {
  }

  // ---------------------------------------------------------------------
  // Handlers
  // ---------------------------------------------------------------------

  method DownloadBlob(proxy: StorageProxy, s3: S3.Service, w: ResponseWriter, name: string, fault: Option<S3.Error>)
    modifies w
    ensures w.Current() == DownloadResponse(old(w.Current()), S3.Get(s3.buckets, proxy.bucketName, ObjectName(proxy, name), fault))
  {
    var result := s3.GetObject(proxy.bucketName, ObjectName(proxy, name), fault);
    if result.Failure? {
      return;
    }
    w.Write(result.value);
  }

  method CheckBlobExists(proxy: StorageProxy, s3: S3.Service, w: ResponseWriter, name: string, fault: Option<S3.Error>)
    modifies w
    ensures w.Current() == ExistsResponse(old(w.Current()), S3.Head(s3.buckets, proxy.bucketName, ObjectName(proxy, name), fault))
  {
    var output, err := s3.HeadObject(proxy.bucketName, ObjectName(proxy, name), fault);
    if output.None? || err.Some? {
      w.WriteHeader(StatusNotFound);
      return;
    }
    w.WriteHeader(StatusOK);
  }

  method UploadBlob(proxy: StorageProxy, s3: S3.Service, w: ResponseWriter, r: Request, name: string, fault: Option<S3.Error>)
    requires WellFormed(r.header)
    modifies s3, w
    ensures w.Current() == UploadResponse(old(w.Current()), S3.PutError(old(s3.buckets), proxy.bucketName, fault))
    ensures exists metadata :: (
      && IsMetadata(metadata, proxy.headerMap, r.header)
      && s3.buckets == S3.Put(old(s3.buckets), proxy.bucketName, ObjectName(proxy, name),
                              S3.Object(r.body, ContentType(r.header), metadata), fault))
  {
    var metadata := Metadata(proxy.headerMap, r.header);
    var obj := S3.Object(r.body, ContentType(r.header), metadata);
    var err := s3.PutObject(proxy.bucketName, ObjectName(proxy, name), obj, fault);
    if err.Some? {
      w.WriteHeader(StatusBadRequest);
      w.Write(FailureBody(err.value));
      return;
    }
    w.WriteHeader(StatusCreated);
  }

  /** `handler`: strip the path, then run the one operation the method selects. */
  method Handler(proxy: StorageProxy, s3: S3.Service, w: ResponseWriter, r: Request, fault: Option<S3.Error>)
    requires |r.path| > 0 && WellFormed(r.header)
    modifies s3, w
    ensures var key := ObjectName(proxy, StripLeadingSlash(r.path));
      match Dispatch(r.verb)
      case Download =>
        && s3.buckets == old(s3.buckets)
        && w.Current() == DownloadResponse(old(w.Current()), S3.Get(old(s3.buckets), proxy.bucketName, key, fault))
      case CheckExists =>
        && s3.buckets == old(s3.buckets)
        && w.Current() == ExistsResponse(old(w.Current()), S3.Head(old(s3.buckets), proxy.bucketName, key, fault))
      case Upload =>
        && w.Current() == UploadResponse(old(w.Current()), S3.PutError(old(s3.buckets), proxy.bucketName, fault))
        && exists metadata :: (
             && IsMetadata(metadata, proxy.headerMap, r.header)
             && s3.buckets == S3.Put(old(s3.buckets), proxy.bucketName, key, S3.Object(r.body, ContentType(r.header), metadata), fault))
      case Ignore =>
        s3.buckets == old(s3.buckets) && w.Current() == old(w.Current())
  {
    var name := StripLeadingSlash(r.path);
    match Dispatch(r.verb)
    case Download => DownloadBlob(proxy, s3, w, name, fault);
    case CheckExists => CheckBlobExists(proxy, s3, w, name, fault);
    case Upload => UploadBlob(proxy, s3, w, r, name, fault);
    case Ignore =>
  }

  // ---------------------------------------------------------------------
  // Properties across requests
  // ---------------------------------------------------------------------

  /** A HEAD for a key that holds no object (or in a bucket that does not exist) finds nothing: 404. */
  lemma HeadOfMissingKey(proxy: StorageProxy, store: S3.Store, name: string, fault: Option<S3.Error>)
    requires !(proxy.bucketName in store && ObjectName(proxy, name) in store[proxy.bucketName])
    ensures ExistsResponse(Unwritten, S3.Head(store, proxy.bucketName, ObjectName(proxy, name), fault)).status == Some(StatusNotFound)
  {
  }

  /**
   * A successful PUT or POST followed by a fault-free HEAD and a fault-free GET
   * of the same path: the upload answers 201, the check 200, and the download
   * returns exactly the uploaded body.
   */
  method UploadThenRead(proxy: StorageProxy, s3: S3.Service, upload: Request)
    returns (put: ResponseWriter, head: ResponseWriter, get: ResponseWriter)
    requires Dispatch(upload.verb) == Upload && |upload.path| > 0 && WellFormed(upload.header)
    requires proxy.bucketName in s3.buckets
    modifies s3
    ensures put.Current() == Response(Some(StatusCreated), [])
    ensures head.Current() == Response(Some(StatusOK), [])
    ensures get.Current() == Response(Some(StatusOK), upload.body)
  {
    put := new ResponseWriter();
    Handler(proxy, s3, put, upload, None);
    head := new ResponseWriter();
    Handler(proxy, s3, head, Request("HEAD", upload.path, map[], []), None);
    get := new ResponseWriter();
    Handler(proxy, s3, get, Request("GET", upload.path, map[], []), None);
  }
}
