# open-sdk-go, modelled in Dafny

A model of the core of `open-sdk-go`, a Go client for a remote open-platform
API. The client serializes itself to JSON and encrypts it with an RSA public
key, in chunks of at most k − 11 bytes. This is the message bound of
RSAES-PKCS1-v1_5 (section 7.2.1 of RFC 8017). The ciphertexts are joined in
order and base64-encoded with the standard padded alphabet (section 4 of
RFC 4648). The client then signs a small header map the same way and POSTs
the encrypted body to an endpoint derived from the configured URL. Every
outcome is reported as a `{status, msg, data}` result envelope.

Modules, one per source file (plus two helpers):

- `Wrappers` (wrappers.dfy): `Option` and `Result`. `Err(e)` stands for a Go
  call that returned a non-nil error with text `e`.
- `Constant` (constant.dfy): the ten result codes of
  internal/constant/constants.go and their getters.
- `Results` (result.dfy): the envelope of pkg/result.go and its helper
  constructors. `data == None` is Go's zero value of the payload.
- `Base64` (base64.dfy): the standard encoding that encrypt.go:62 applies,
  with a decoder as its proved inverse.
- `Encrypt` (encrypt.dfy): `RsaEncode`, the imperative chunking loop of
  internal/encrypt/encrypt.go. `RsaEncoding` is the value the loop is proved
  to compute. Around it sit lemmas for chunk bounds, coverage, chunk count,
  ciphertext layout, first-error reporting and the decryption round trip.
- `Client` (client.dfy): `OpenPlatformClient`, a class with the source's
  fields, fluent setters and its `Secure` and `Send` methods.
  - The pure parts of `Send` are functions: endpoint derivation and the wire
    request.
  - The header merge is a method with a loop.

`Send` runs against an `Environment`. This holds what the code consults
outside its own logic: the URI parser, the two JSON encoders, the JSON
decoder, the outcome of loading the key, the per-chunk RSA cipher, the clock
in milliseconds and the HTTP transport. Its result is an `Outcome`. That is
either `Panicked` or `Returned(result, sent)`, where `sent` is the request
handed to the transport, if any.

`Panicked` models the run-time panic at pkg/client.go:99. The URL parser
accepts URLs such as `http://host` or `/path`, which have fewer than three
`/`. For those, `idx[2]` is out of range.

The endpoint keeps only the part of the URL before its third `/`, that is
`scheme://host[:port]`. Then it appends `/api` if that part starts with
`https://open.yljr.com`, then `/api-app/sdk/request`. Every path segment of
the URL is dropped: `https://open.yljr.com/foo/bar/baz` gives
`https://open.yljr.com/api/api-app/sdk/request`, not
`https://open.yljr.com/foo/bar/api/api-app/sdk/request`
(`Client.EndpointOfSpecialHost`).

## Model

| member | source | states |
|---|---|---|
| Constant.GettersReturnFields | internal/constant/constants.go:8-14 | `Status()` and `Msg()` return exactly the status and message a code was built from |
| Constant.StatusesDistinct | internal/constant/constants.go:17-26 | the table has ten codes and no two share a status string |
| Constant.StatusesWellFormed | internal/constant/constants.go:17-26 | every status is `M` followed by four decimal digits |
| Constant.TableValues | internal/constant/constants.go:17-26 | SUCCESS is M0200, FAILED M0500, CALL_FAILED M0511, RESPONSE_CONVERSION_ERROR M0513, REQUEST_PARAM_NOT_NULL M0514, with their messages where `Send` returns them |
| Results.NewBaseResult | pkg/result.go:15-17 | the envelope has the given status and message and a zero payload |
| Results.Success | pkg/result.go:20-22 | status and message are SUCCESS's (M0200), no payload |
| Results.SuccessWithData | pkg/result.go:25-29 | same status and message as `Success()`, payload `data` |
| Results.Fail | pkg/result.go:32-34 | status and message are FAILED's (M0500), no payload |
| Results.FailWithData | pkg/result.go:37-41 | same status and message as `Fail()`, payload `data` |
| Results.FailWithResultCode | pkg/result.go:44-46 | status and message are the code's `Status()` and `Msg()` |
| Results.FailWithCodeAndMsg | pkg/result.go:49-51 | exactly the given status and message, no payload |
| Results.SetData | pkg/result.go:54-57 | only the payload changes; status and message are kept |
| Results.WithDataIsSetData | pkg/result.go:25-41 | the with-data helpers are the plain helpers followed by `setData` |
| Results.SuccessDiffersFromFailure | pkg/result.go:20-46 | a success envelope never has the status of a failure envelope built from another code of the table |
| Base64.Encode | internal/encrypt/encrypt.go:62 | n bytes encode to 4·ceil(n/3) characters, each from the RFC 4648 alphabet or the pad; empty input gives "" |
| Base64.RoundTrip | internal/encrypt/encrypt.go:62 | decoding the encoding gives back the bytes exactly |
| Base64.EncodeInjective | internal/encrypt/encrypt.go:62 | distinct buffers have distinct encodings |
| Encrypt.MaxChunkSize | internal/encrypt/encrypt.go:43-44 | the chunk limit is positive and equals the key size minus the 11 bytes of PKCS#1 v1.5 padding |
| Encrypt.ChunkBounds | internal/encrypt/encrypt.go:48-53 | every chunk handed to the cipher has 0 < length ≤ k − 11, and all but the last have exactly k − 11 bytes |
| Encrypt.ChunksCover | internal/encrypt/encrypt.go:48-59 | the chunks concatenated in order are the plaintext: no gap, overlap or reordering |
| Encrypt.ChunkCount | internal/encrypt/encrypt.go:48-60 | there are ceil(L / (k − 11)) chunks; none exactly when L = 0 |
| Encrypt.EncryptAllSucceeds | internal/encrypt/encrypt.go:54-58 | the buffer is produced exactly when every chunk encrypts |
| Encrypt.EncryptAllFirstError | internal/encrypt/encrypt.go:54-57 | a failure carries the error of the first chunk that failed, and every earlier chunk encrypted |
| Encrypt.CiphertextLayout | internal/encrypt/encrypt.go:54-58 | with k-byte ciphertexts the buffer has chunks × k bytes, and its k-byte blocks are the chunks' ciphertexts in input order |
| Encrypt.RoundTrip | internal/encrypt/encrypt.go:43-62 | base64-decoding the output, cutting it into k-byte blocks and decrypting each with the matching private key gives back the plaintext |
| Encrypt.RsaEncodingEdgeCases | internal/encrypt/encrypt.go:21-62 | a key that fails to load yields its error text whatever the plaintext; an empty plaintext yields "" |
| Encrypt.RsaEncodingSucceeds | internal/encrypt/encrypt.go:48-62 | with a key, the routine succeeds exactly when every chunk encrypts |
| Encrypt.RsaEncodingChunkError | internal/encrypt/encrypt.go:54-57 | a chunk failure returns only the first failing chunk's error, under the "RSA加密数据块失败: " prefix; no partial ciphertext |
| Encrypt.RsaEncodingLength | internal/encrypt/encrypt.go:54-62 | on success the text has 4·ceil(n/3) characters for n = chunks × k |
| Encrypt.KeyErrorText | internal/encrypt/encrypt.go:24-40 | the four key-load error texts, each with the cause inserted where the source formats it |
| Encrypt.Chunks | internal/encrypt/encrypt.go:48-53 | the plaintext cut front to back into pieces of k − 11 bytes, the last one shorter; no pieces for an empty plaintext (its properties are ChunkBounds, ChunksCover and ChunkCount) |
| Encrypt.EncryptAll | internal/encrypt/encrypt.go:54-58 | the ciphertexts of the chunks concatenated in order, or the error of the first chunk that fails (its properties are EncryptAllSucceeds, EncryptAllFirstError and CiphertextLayout) |
| Encrypt.EncryptAllSnoc | internal/encrypt/encrypt.go:58 | encrypting one more chunk appends its ciphertext to the buffer |
| Encrypt.RsaEncoding | internal/encrypt/encrypt.go:21-62 | the routine's result: the key-load error text, the prefixed error of the first failing chunk, or the base64 text of the ordered ciphertext |
| Encrypt.RsaEncode | internal/encrypt/encrypt.go:19-63 | the loop computes `RsaEncoding`. Its invariants state that the handed chunks are a prefix of all the chunks, that their bytes are a prefix of the plaintext, and that the buffer is exactly the concatenated ciphertext of the handed chunks |
| Client.NextSlash | pkg/client.go:97-99 | the scan finds the position of a `/` preceded by exactly n more `/` since `from`, or there are at most n of them left |
| Client.ThirdSlash | pkg/client.go:97-99 | the result is the position of the third `/`; there is none exactly when the URL has fewer than three |
| Client.ThirdSlashUnique | pkg/client.go:97-99 | a URL has only one third `/`, so the endpoint's prefix is determined |
| Client.Endpoint | pkg/client.go:97-103 | the prefix before the third `/`, plus `/api` iff that prefix starts with `https://open.yljr.com`, plus `/api-app/sdk/request`; `None` (the panic) iff fewer than three `/` |
| Client.EndpointOfUrl | pkg/client.go:97-103 | for `scheme://host/path`, only `scheme://host` survives, whatever the path |
| Client.EndpointWithoutPath | pkg/client.go:98-99 | a bare `scheme://host` has no third `/`: Send panics |
| Client.EndpointOfSpecialHost | pkg/client.go:97-103 | `https://open.yljr.com/foo/bar/baz` gives `https://open.yljr.com/api/api-app/sdk/request` |
| Client.EndpointOfOtherHost | pkg/client.go:97-103 | `https://other.example.com/a/b/c` gives `https://other.example.com/api-app/sdk/request` |
| Client.EndpointOfBareHost | pkg/client.go:98-99 | `http://host` makes Send panic |
| Client.FrameworkHeaders | pkg/client.go:124-126 | the three headers Send sets itself: Content-Type `application/json`, `algorithm` and `secure` |
| Client.MergeHeaders | pkg/client.go:124-131 | the keys are those of both maps; every caller key takes the caller's value (last write wins), every other key keeps the framework's value |
| Client.MergedIsUnion | pkg/client.go:124-131 | the merged header map is exactly the framework headers overridden key by key by the caller's |
| Client.OpenPlatformClient.WireRequest | pkg/client.go:112-136 | the request is a POST to the endpoint; its body has the single key `encryptData`; its headers are Content-Type, algorithm and secure, overwritten by the caller's; timeout 5 s; server certificate not verified |
| Client.OpenPlatformClient.constructor | pkg/client.go:42-50 | `NewClient` copies the three arguments, sets RSA and no report, and leaves data, headers and product case empty |
| Client.OpenPlatformClient.SetData | pkg/client.go:52-55 | only the payload changes; the receiver is returned |
| Client.OpenPlatformClient.SetHeader | pkg/client.go:57-63 | the header map is replaced wholesale by the argument; nothing else changes; the receiver is returned |
| Client.OpenPlatformClient.SetAlgorithmType | pkg/client.go:65-68 | only the algorithm changes; the receiver is returned |
| Client.OpenPlatformClient.SetReport | pkg/client.go:70-73 | only the report flag changes; the receiver is returned |
| Client.OpenPlatformClient.SetProductCase | pkg/client.go:75-78 | only the product case changes; the receiver is returned |
| Client.OpenPlatformClient.BodyCipher | pkg/client.go:106-107 | the request body's encryption: the JSON of the client's fields through the chunked encryptor |
| Client.OpenPlatformClient.SignText | pkg/client.go:159-168 | the sign text: the encryption of the JSON of appKey, appSecret and the millisecond timestamp, or "" when that encryption fails |
| Client.OpenPlatformClient.Secure | pkg/client.go:156-174 | fails iff the algorithm is not RSA, with "当前语言不支持的算法类型"; with RSA it succeeds with the encrypted sign header, or "" when that encryption failed |
| Client.OpenPlatformClient.Send | pkg/client.go:86-153 | see the list below |
| Client.ParamErrorStatusIsParamNotNull | pkg/client.go:88-96 | the literal M0514 of Send's validation failures is REQUEST_PARAM_NOT_NULL's status, though the message is Send's own |

What `Send`'s contract states:

- An empty URL returns M0514 "请求地址不能为空" and sends nothing.
- A URL the parser rejects returns M0514 "请求地址格式不正确" and sends nothing.
- An accepted URL with fewer than three `/` panics.
- A failure to encrypt the body returns M0514 with the error text and sends
  nothing.
- A non-RSA algorithm returns M0514 with the signing error and sends nothing.
- Otherwise exactly `WireRequest(endpoint, encrypted body, sign)` is sent,
  and then:
  - a transport error gives CALL_FAILED;
  - an undecodable response gives RESPONSE_CONVERSION_ERROR;
  - otherwise the decoded envelope is returned unchanged.

## Left out

- Key loading (internal/encrypt/encrypt.go:21-41): the file read and the
  PEM/X.509 parsing are library I/O. They are modelled by their outcome: a key
  of `size` bytes, or one of the four errors with the source's error texts.
  The source re-reads the key on every call. Within one `Send` the model uses
  the same outcome for both calls.
- Keys of 11 bytes or fewer: `Encrypt.KeySize` excludes them. For such keys
  the loop would slice with a negative or zero chunk size (a panic or no
  progress), unless the crypto library rejected the key first.
- RSA encryption of a chunk (internal/encrypt/encrypt.go:54): randomized and
  provided by the library. The model makes the ciphertext a function of the
  key and the chunk (`Encrypt.ChunkCipher`). So it does not capture that PKCS#1
  v1.5 pads every call with fresh random bytes. Equal chunks, or the same
  bytes in the body and in the signature, encrypt to different blocks in Go
  but to equal blocks in the model. That ciphertexts are k bytes long is a
  hypothesis of the lemmas that need it (`KeySizedOutput`).
- JSON encoding and decoding (pkg/client.go:106, 115, 147, 166) and
  `url.ParseRequestURI` (pkg/client.go:92): oracles in the `Environment`.
  The source ignores encoding errors, so the encoders are total. The request
  body is kept as the map it encodes.
- HTTP transport (pkg/client.go:123, 134-145): the transport is an oracle
  from the request to the response bytes or an error. Reading the body is
  part of it: its error is ignored in the source. The timeout and the disabled
  certificate check are recorded in the request. A failing `http.NewRequest`
  is also ignored by the source and would make it panic. The model does not
  include that case.
- Header-key canonicalization in `http.Header.Set`: headers merge over the
  literal keys. So a caller key such as `content-type` is a different key in
  the model, although Go would fold it onto `Content-Type`.
- The wall clock in `secure` (pkg/client.go:159): a parameter (`nowMillis`).
  The freshness of signatures is not modelled.
- Nil versus empty maps and zero payloads: a nil header map is the empty map,
  because ranging over nil does nothing and `omitempty` treats both alike. A
  zero payload is `None`. But `SuccessWithData`, `FailWithData` and both
  `SetData`s always give `Some(data)`, even for a zero argument
  (`successWithData[any](nil)` is `success()` in Go, but a `Some` in the model).
- Client.OpenPlatformClient.SetHeader: the field holds a copy of the map.
  Go stores the caller's map by reference (pkg/client.go:61), so later writes
  by the caller to that map, or the same map given to a second client, change
  what `Send` sends when it ranges over the headers (pkg/client.go:129-131).
  The model does not capture this sharing.
- Results.SetData: modelled on values, so it does not capture that Go updates
  the receiver in place and returns the same pointer. The with-data helpers
  update a freshly allocated value, so for them nothing is lost.
- Logging and the `String()` methods (pkg/client.go:80-83,
  pkg/result.go:59-61): output formatting only.
- tests/client_test.go is a live-network smoke test without assertions. It is
  not part of this model.
