# S3 HTTP proxy: a Dafny model of its request translation

The proxy is a stateless HTTP front end to one bucket of an object store.
A request names an object by its URL path. The object key is the configured
prefix followed by the path without its leading `/`. The method chooses the
operation:

- GET streams the object into the response.
- HEAD answers 200 or 404 after a metadata-only query.
- POST and PUT store the request body as the object.
- Every other method leaves the response untouched.

On upload, request headers named in a configured header map (parsed at
startup from a string such as `h1=m1,h2=m2`) become object metadata. The
`Content-Type` header becomes the object's content type.

The model is split into these files:

- `proxy.dfy` (module `Proxy`) is the core, `proxy/http_proxy.go`:
  - the configuration record `StorageProxy`;
  - the header-map parsing loop `NewStorageProxy`, proved against the
    reference function `HeaderMapOf`;
  - `ObjectName`, `StripLeadingSlash` and `Dispatch`;
  - the metadata loop `Metadata`, proved against the relation `IsMetadata`;
  - the three handlers and `Handler`, which update a `ResponseWriter` and
    the backend.
- `go_strings.dfy` (module `GoStrings`) models `strings.Split` with a
  one-character separator, together with its inverse `Join` and the
  round-trip lemmas that connect them. It also models `strings.ToLower` on
  header names and `[]byte(s)` on ASCII text.
- `http.dfy` (module `Http`) models the request, the header map and
  `Header.Get`. It also models the `ResponseWriter` class:
  - only the first `WriteHeader` with a final status (200 or above) takes
    effect, and a 1xx code is informational and commits nothing;
  - `Write` appends to the body and commits status 200 if no status was
    written yet.
- `s3.dfy` (module `S3`) is the backend as seen through the SDK. It is a
  store of buckets of objects behind a `Service` class. Every call takes a
  `fault` chosen by the environment, which stands for every failure the
  network or the service can produce.
- `wrappers.dfy` (module `Wrappers`) holds `Option` and `Result`.

Two expectations a reader might have do not hold of the code. The model
follows the code:

- One might expect two proxies with different prefixes on one bucket never
  to collide. The key is a plain concatenation, so prefix `a` with name `bc`
  and prefix `ab` with name `c` give the same key (`PrefixesCollide`).
  Isolation holds exactly when neither prefix is a prefix of the other:
  `PrefixIsolation` proves that such proxies never collide, and
  `PrefixOverlapCollides` proves that whenever one prefix extends the
  other, some pair of names collides.
- One might expect the header map to match header names regardless of
  case, so that a mapping such as `X-Meta-Foo=foo` forwards the header
  `X-Meta-Foo`. The parser does not lower-case keys, and the lookup
  lower-cases the request's header name. A configured key with an
  upper-case letter can therefore never match.
  `UpperCaseKeyIgnored` proves this in general, and
  `UpperCaseConfigurationForwardsNothing` proves it for the example.
  `ForwardsConfiguredHeader` shows that the lower-case mapping does forward
  the header.

## Model

| member | source | states |
|---|---|---|
| GoStrings.Split | proxy/http_proxy.go:26-27 | splitting on one character gives one more piece than there are separators, and no piece contains the separator |
| GoStrings.JoinSplit | proxy/http_proxy.go:26-27 | joining the pieces of a split with the separator restores the original string |
| GoStrings.SplitJoin | proxy/http_proxy.go:26-27 | splitting a join of separator-free pieces gives back exactly those pieces |
| GoStrings.ToLower | proxy/http_proxy.go:107 | lower-casing a header name keeps its length, lowers each letter A-Z and leaves no upper-case letter |
| Proxy.PairOfWellFormed | proxy/http_proxy.go:27-29 | a configuration piece is kept as (l, r) exactly when it is l + "=" + r and neither l nor r contains '=' |
| Proxy.PairOfDropped | proxy/http_proxy.go:27-28 | a piece is dropped exactly when it contains no '=' or more than one |
| Proxy.HeaderMapKeys | proxy/http_proxy.go:25-31 | a header name is a key of the parsed map exactly when some kept piece has it as its left-hand side |
| Proxy.HeaderMapLaterWins | proxy/http_proxy.go:26-29 | when a left-hand side repeats, the map holds the right-hand side of the last kept piece with that name |
| Proxy.EmptyMapping | proxy/http_proxy.go:25-31 | the empty configuration string gives the empty map |
| Proxy.SinglePairMapping | proxy/http_proxy.go:25-31 | a configuration consisting of one pair l=r gives exactly the map l -> r |
| Proxy.LowerCaseExampleMapping | proxy/http_proxy.go:25-31 | "x-meta-foo=foo" gives the map x-meta-foo -> foo |
| Proxy.UpperCaseExampleMapping | proxy/http_proxy.go:25-31 | "X-Meta-Foo=foo" gives X-Meta-Foo -> foo, with the key's case kept |
| Proxy.NewStorageProxy | proxy/http_proxy.go:24-38 | the loop builds exactly the map of the kept pairs taken in order, and keeps the bucket name and prefix |
| Proxy.ObjectName | proxy/http_proxy.go:41-43 | the key consists of the prefix followed by the name, so the name can be read back from the key |
| Proxy.ObjectNameInjective | proxy/http_proxy.go:41-43 | under one prefix two names give the same key exactly when they are equal, and the empty name gives the prefix alone |
| Proxy.PrefixIsolation | proxy/http_proxy.go:41-43 | two proxies whose prefixes are not prefixes of one another never produce the same key |
| Proxy.PrefixOverlapCollides | proxy/http_proxy.go:41-43 | when one proxy's prefix extends another's, the shorter proxy maps the rest of the longer prefix plus any name to the longer proxy's key for that name |
| Proxy.PrefixesCollide | proxy/http_proxy.go:41-43 | different prefixes do not isolate on their own: "a" + "bc" equals "ab" + "c" |
| Proxy.StripLeadingSlash | proxy/http_proxy.go:60-63 | for a non-empty path, the name is the path minus one leading '/', or the path itself when it does not start with '/' |
| Proxy.StripLeadingSlashOnce | proxy/http_proxy.go:60-63 | "/" + p and p (without leading '/') name the same object, and "//" + p keeps one '/' |
| Proxy.Dispatch | proxy/http_proxy.go:64-72 | GET selects download, HEAD selects the existence check, POST and PUT select the same upload, and every other method selects nothing |
| Proxy.Metadata | proxy/http_proxy.go:105-110 | the loop, visiting headers in any order, builds metadata whose every entry is the first value of some header whose lower-cased name maps to that entry's name, and which covers every mapped header's target |
| Proxy.MetadataValues | proxy/http_proxy.go:105-110 | when no two headers share a target, each mapped header's first value is stored under headerMap[lower(name)] |
| Proxy.MetadataDeterministic | proxy/http_proxy.go:105-110 | when no two headers share a target, the metadata does not depend on the visiting order |
| Proxy.UpperCaseKeyNeverMatches | proxy/http_proxy.go:107 | a configured key with an upper-case letter never equals a lower-cased header name |
| Proxy.UpperCaseKeyIgnored | proxy/http_proxy.go:105-110 | removing such a key from the map leaves the metadata of every request unchanged |
| Proxy.ForwardsConfiguredHeader | proxy/http_proxy.go:105-110 | under x-meta-foo -> foo, the headers X-Meta-Foo: bar and X-Other: baz give exactly the metadata foo -> bar |
| Proxy.UpperCaseConfigurationForwardsNothing | proxy/http_proxy.go:105-110 | under X-Meta-Foo -> foo, the header X-Meta-Foo: bar gives empty metadata |
| Proxy.ContentType | proxy/http_proxy.go:114 | the object's content type is the first Content-Type value, or "" when the header is absent or has no value |
| Proxy.FailureBody | proxy/http_proxy.go:122-123 | the failed-upload body is non-empty and ends with the backend error's text |
| Proxy.DownloadOutcome | proxy/http_proxy.go:82-86 | on a fresh response, a successful download writes status 200 and the content, and a failed one writes nothing |
| Proxy.ExistsOutcome | proxy/http_proxy.go:94-100 | on a fresh response, the existence check writes no body, and writes 200 exactly when the query returns an output without an error, else 404 |
| Proxy.UploadOutcome | proxy/http_proxy.go:119-126 | on a fresh response, an upload writes 201 with no body exactly when the store succeeds, and otherwise 400 with the failure body |
| Proxy.DownloadBlob | proxy/http_proxy.go:74-87 | the response becomes the download outcome of fetching ObjectName(name) from the proxy's bucket |
| Proxy.CheckBlobExists | proxy/http_proxy.go:89-101 | the response becomes the existence outcome of querying ObjectName(name) in the proxy's bucket |
| Proxy.UploadBlob | proxy/http_proxy.go:103-127 | the backend stores the body under ObjectName(name) with the request's content type and metadata (if the store succeeds), and the response becomes the upload outcome of the store's error |
| Proxy.Handler | proxy/http_proxy.go:59-73 | the handler runs exactly the operation its method selects, on the stripped path; any other method changes neither the response nor the backend |
| Proxy.HeadOfMissingKey | proxy/http_proxy.go:89-100 | a HEAD for a key never stored in the bucket, or in a bucket that does not exist, answers 404 |
| Proxy.UploadThenRead | proxy/http_proxy.go:59-127 | after a fault-free PUT or POST, the upload answers 201, a HEAD of the same path answers 200, and a GET returns exactly the uploaded body with 200 |

## Left out

- `Serve` (listener, `http.HandleFunc`, `http.ListenAndServe`) is network plumbing and is not modelled.
- The AWS SDK is not modelled:
  - the session, `s3.New` and the `Downloader` / `Uploader` (including `Concurrency = 1` and multipart transfer);
  - in its place is the abstract store in `S3`, whose calls fail with an environment-chosen fault, with `NoSuchBucket` for an unknown bucket, or with `NotFound` for an unknown key;
  - the error texts are stand-ins.
- `NewSequentialWriter` is not part of this model.
  - A successful download is one `Write` of the whole content.
  - Bytes written before a download fails midway are not modelled.
  - Whether an empty object produces any `Write` is not modelled; the model writes once, committing status 200.
- Streaming through `bufio.NewReader` is not modelled. Request and object bodies are whole byte sequences.
- `log.Printf` has no observable effect and is left out.
- Concurrency between requests is left out. The proxy holds no mutable state, and each request gets its own `ResponseWriter`.
- net/http delivers header names in canonical form. The model takes header names as delivered, and looks up `Content-Type` literally.
- GoStrings.ToLower: lower-cases only ASCII letters, unlike Go's Unicode-aware `strings.ToLower`. Header names are ASCII tokens, so the two agree on every name a request can carry.
- Proxy.StripLeadingSlash: requires a non-empty path. On an empty path `key[0]` panics in Go, and that panic is not modelled.
- Proxy.Metadata: requires every header name to carry at least one value, as the server guarantees. `v[0]` would panic otherwise.
- Proxy.Metadata: states only that a shared target's value is the first value of one of the headers mapped to it, not of which one. Go visits the header map in an unspecified order. The exact value is proved when no two headers share a target.
- The SDK's `HeadObject` may return a non-nil output together with an error. The model returns no output on an error. Both give 404 under the code's `objectOutput == nil || err != nil`.
- Metadata values are `*string` in Go and plain strings in the model.
- Go strings are byte strings; the model's strings are sequences of characters. Every string operation of the core agrees with UTF-8 encoding: concatenation, splitting on the ASCII characters ',' and '=', and testing or removing a leading '/'. A path that is not valid UTF-8 cannot be represented; the backend rejects such keys anyway.
- net/http logs superfluous `WriteHeader` calls. The model only keeps the first final status; the 1xx informational responses themselves are not recorded.
- Improvements the code does not make (404/502 on download failure, 405 for unknown methods) are not modelled.
