/** The request client of pkg/client.go. The URI parser, JSON encoding and
    decoding, key loading, per-chunk RSA encryption, the clock and the HTTP
    transport are parameters (an `Environment`); what remains is the
    validation, endpoint derivation, error mapping, header merge, the
    algorithm gate and the fluent setters. */
module Client {
  import opened Wrappers
  import Constant
  import Results
  import Encrypt

  type byte = Encrypt.byte

  /** Go's AlgorithmType is a string type with two named values. */
  type AlgorithmType = string

  const RSA: AlgorithmType := "RSA"
  const SM2: AlgorithmType := "SM2"

  /** The status Send writes as a literal for its validation failures. */
  const PARAM_ERROR_STATUS: string := "M0514"
  const EMPTY_URL_MSG: string := "请求地址不能为空"
  const MALFORMED_URL_MSG: string := "请求地址格式不正确"
  const UNSUPPORTED_ALGORITHM_MSG: string := "当前语言不支持的算法类型"

  /** The host that gets an extra `/api` segment, and the fixed request path. */
  const SPECIAL_HOST: string := "https://open.yljr.com"
  const API_SEGMENT: string := "/api"
  const REQUEST_PATH: string := "/api-app/sdk/request"

  /** Transport settings fixed by Send: a five-second timeout and no
      verification of the server certificate. */
  const TIMEOUT_SECONDS: nat := 5
  const VERIFY_SERVER_CERTIFICATE: bool := false

  /** The client's fields as the JSON encoder sees them. `requestData ==
      None` is the zero value of the payload; a nil header map is the empty map. */
  datatype Config<T> = Config(
    appKey: string,
    appSecret: string,
    requestUrl: string,
    requestData: Option<T>,
    headers: map<string, string>,
    algorithmType: AlgorithmType,
    isReport: bool,
    productCase: string)

  /** What goes on the wire: a POST with a JSON body (kept as the map it
      encodes) and headers, under the transport's settings. */
  datatype HttpRequest = HttpRequest(
    httpMethod: string,
    url: string,
    body: map<string, string>,
    headers: map<string, string>,
    timeoutSeconds: nat,
    verifyServerCertificate: bool)

  /** Everything Send consults outside its own logic. */
  datatype Environment<!T, D> = Environment(
    parsesAsRequestUri: string -> bool,                     // url.ParseRequestURI succeeds
    marshalClient: Config<T> -> seq<byte>,                  // json.Marshal(c)
    marshalSignHeader: (string, string, int) -> seq<byte>,  // json.Marshal of the sign header map
    key: Result<Encrypt.PublicKey, Encrypt.KeyError>,       // loading the public key file
    cipher: Encrypt.ChunkCipher,                            // rsa.EncryptPKCS1v15 on one chunk
    nowMillis: int,                                         // time.Now() in milliseconds
    transport: HttpRequest -> Result<seq<byte>, string>,    // client.Do and reading the body
    unmarshalResult: seq<byte> -> Option<Results.BaseResult<D>>)  // json.Unmarshal into BaseResult

  /** Send either panics (an index out of range) or returns an envelope;
      `sent` is the request handed to the transport, if it got that far. */
  datatype Outcome<D> = Panicked | Returned(result: Results.BaseResult<D>, sent: Option<HttpRequest>)

  // ---- endpoint derivation ----

  /** Position `i` holds the third `/` of `url`. */
  predicate IsThirdSlash(url: string, i: int)
  {
    0 <= i < |url| && url[i] == '/' && multiset(url[..i])['/'] == 2
  }

  /** The position of the slash that follows `n` further slashes, scanning
      from `from`; `None` when the text runs out first. */
  function NextSlash(s: string, n: nat, from: nat): (r: Option<nat>)
    requires from <= |s|
    ensures r.Some? ==> from <= r.value < |s| && s[r.value] == '/' && multiset(s[from..r.value])['/'] == n
    ensures r.None? ==> multiset(s[from..])['/'] <= n
    decreases |s| - from
  {
    if from == |s| then None
    else
      var r := if s[from] != '/' then NextSlash(s, n, from + 1)
               else if n == 0 then Some(from)
               else NextSlash(s, n - 1, from + 1);
      SlashesFrom(s, from, |s|);
      assert s[from..] == s[from..|s|] && s[from + 1..] == s[from + 1..|s|];
      if r.Some? && r.value > from then SlashesFrom(s, from, r.value); r else r
  }

  /** Counting slashes from `from` is counting the first character, then the rest. */
  lemma SlashesFrom(s: string, from: nat, to: nat)
    requires from < to <= |s|
    ensures multiset(s[from..to])['/'] == (if s[from] == '/' then 1 else 0) + multiset(s[from + 1..to])['/']
  {
    assert s[from..to] == [s[from]] + s[from + 1..to];
  }

  /** The third `/` of the URL, as `regexp.FindAllStringIndex(url, 3)[2]`. */
  function ThirdSlash(url: string): (r: Option<nat>)
    ensures r.Some? ==> IsThirdSlash(url, r.value)
    ensures r.None? <==> multiset(url)['/'] < 3
  {
    var r := NextSlash(url, 2, 0);
    assert url[0..] == url;
    assert r.Some? ==> url[0..r.value] == url[..r.value];
    if r.Some? then
      assert url == url[..r.value] + url[r.value..];
      assert url[r.value..] == [url[r.value]] + url[r.value + 1..];
      r
    else r
  }

  predicate HasPrefix(s: string, prefix: string)
  {
    |prefix| <= |s| && s[..|prefix|] == prefix
  }

  /** The request endpoint: the part of the URL before its third `/` (scheme
      and host with port), then `/api` when that part starts with the special
      host, then the fixed request path. `None` is Go's index-out-of-range
      panic for a URL with fewer than three slashes. */
  function Endpoint(url: string): (r: Option<string>)
    ensures r.None? <==> multiset(url)['/'] < 3
    ensures r.Some? ==> exists i ::
              && IsThirdSlash(url, i)
              && r.value == url[..i] + (if HasPrefix(url[..i], SPECIAL_HOST) then API_SEGMENT else "") + REQUEST_PATH
  {
    match ThirdSlash(url)
    case None => None
    case Some(i) =>
      var base := url[..i];
      var withApi := if HasPrefix(base, SPECIAL_HOST) then base + API_SEGMENT else base;
      Some(withApi + REQUEST_PATH)
  }

  /** A slash at `i` adds one to the count of every longer prefix. */
  lemma SlashCountGrows(s: string, i: int, j: int)
    requires 0 <= i < j <= |s| && s[i] == '/'
    ensures multiset(s[..j])['/'] > multiset(s[..i])['/']
  {
    assert s[..j] == s[..i] + s[i..j];
    assert s[i..j] == [s[i]] + s[i + 1..j];
  }

  /** The third slash is unique, so the endpoint's prefix is determined. */
  lemma ThirdSlashUnique(url: string, i: int, j: int)
    requires IsThirdSlash(url, i) && IsThirdSlash(url, j)
    ensures i == j
  {
    if i < j {
      SlashCountGrows(url, i, j);
      assert false;
    } else if j < i {
      SlashCountGrows(url, j, i);
      assert false;
    }
  }

  /** `scheme://host` holds just the two slashes of `//`. */
  lemma SlashesOfAuthority(scheme: string, host: string)
    requires '/' !in scheme && '/' !in host
    ensures multiset(scheme + "//" + host)['/'] == 2
  {
    assert multiset(scheme + "//" + host) == multiset(scheme) + multiset("//") + multiset(host);
    assert multiset(scheme)['/'] == 0 && multiset(host)['/'] == 0;
  }

  /** For `scheme://host/path` with no slash in scheme or host, the endpoint
      keeps `scheme://host` and none of the path. */
  lemma EndpointOfUrl(scheme: string, host: string, path: string)
    requires '/' !in scheme && '/' !in host
    ensures var base := scheme + "//" + host;
      Endpoint(base + "/" + path)
      == Some(base + (if HasPrefix(base, SPECIAL_HOST) then API_SEGMENT else "") + REQUEST_PATH)
  {
    var base := scheme + "//" + host;
    var url := base + "/" + path;
    var i := |base|;
    SlashesOfAuthority(scheme, host);
    assert url[..i] == base && url[i] == '/';
    assert IsThirdSlash(url, i);
    SlashCountGrows(url, i, |url|);
    assert url[..|url|] == url;
    var j := ThirdSlash(url).value;
    ThirdSlashUnique(url, i, j);
    assert base + "" == base;
  }

  /** A URL made of `scheme://host` alone has only two slashes: Send panics. */
  lemma EndpointWithoutPath(scheme: string, host: string)
    requires '/' !in scheme && '/' !in host
    ensures Endpoint(scheme + "//" + host) == None
  {
    SlashesOfAuthority(scheme, host);
  }

  // SpecialUrlParts, SpecialHostPrefix, SpecialEndpointText, OtherUrlParts,
  // OtherHostPrefix, OtherEndpointText and BareUrlParts only evaluate string
  // literals. They are aids for the solver: proved apart from the endpoint
  // definitions, these facts stay cheap for the three example lemmas below.

  lemma SpecialUrlParts()
    ensures "https:" + "//" + "open.yljr.com" == "https://open.yljr.com"
    ensures "https://open.yljr.com" + "/" + "foo/bar/baz" == "https://open.yljr.com/foo/bar/baz"
  {
  }

  lemma SpecialEndpointText()
    ensures "https://open.yljr.com" + API_SEGMENT + REQUEST_PATH == "https://open.yljr.com/api/api-app/sdk/request"
  {
  }

  lemma SpecialHostPrefix()
    ensures HasPrefix("https://open.yljr.com", SPECIAL_HOST)
  {
  }

  lemma OtherUrlParts()
    ensures "https:" + "//" + "other.example.com" == "https://other.example.com"
    ensures "https://other.example.com" + "/" + "a/b/c" == "https://other.example.com/a/b/c"
  {
  }

  lemma OtherEndpointText()
    ensures "https://other.example.com" + "" + REQUEST_PATH == "https://other.example.com/api-app/sdk/request"
  {
  }

  lemma OtherHostPrefix()
    ensures !HasPrefix("https://other.example.com", SPECIAL_HOST)
  {
    assert "https://other.example.com"[9] != SPECIAL_HOST[9];
  }

  /** Only `scheme://host[:port]` survives: every path segment is dropped. */
  lemma EndpointOfSpecialHost()
    ensures Endpoint("https://open.yljr.com/foo/bar/baz") == Some("https://open.yljr.com/api/api-app/sdk/request")
  {
    EndpointOfUrl("https:", "open.yljr.com", "foo/bar/baz");
    SpecialUrlParts();
    SpecialHostPrefix();
    SpecialEndpointText();
  }

  lemma EndpointOfOtherHost()
    ensures Endpoint("https://other.example.com/a/b/c") == Some("https://other.example.com/api-app/sdk/request")
  {
    EndpointOfUrl("https:", "other.example.com", "a/b/c");
    OtherUrlParts();
    OtherHostPrefix();
    OtherEndpointText();
  }

  lemma BareUrlParts()
    ensures '/' !in "http:" && '/' !in "host"
    ensures "http:" + "//" + "host" == "http://host"
  {
  }

  lemma EndpointOfBareHost()
    ensures Endpoint("http://host") == None
  {
    BareUrlParts();
    EndpointWithoutPath("http:", "host");
  }

  // ---- headers ----

  /** The headers Send sets itself before the caller's. */
  function FrameworkHeaders(algorithmType: AlgorithmType, sign: string): map<string, string>
  {
    map["Content-Type" := "application/json", "algorithm" := algorithmType, "secure" := sign]
  }

  /** Writes every custom header over `base`, one key at a time: the caller's
      value wins on every key it names, the others keep their value. */
  method MergeHeaders(base: map<string, string>, custom: map<string, string>) returns (merged: map<string, string>)
    ensures merged.Keys == base.Keys + custom.Keys
    ensures forall k :: k in custom ==> merged[k] == custom[k]
    ensures forall k :: k in base && k !in custom ==> merged[k] == base[k]
  {
    merged := base;
    var pending := custom.Keys;
    while pending != {}
      invariant pending <= custom.Keys
      invariant merged.Keys == base.Keys + (custom.Keys - pending)
      invariant forall k :: k in custom && k !in pending ==> merged[k] == custom[k]
      invariant forall k :: k in base && k !in custom.Keys - pending ==> merged[k] == base[k]
      decreases pending
    {
      var k :| k in pending;
      merged := merged[k := custom[k]];
      pending := pending - {k};
    }
  }

  /** Any map with MergeHeaders' contract is the right-biased union. */
  lemma MergedIsUnion(base: map<string, string>, custom: map<string, string>, merged: map<string, string>)
    requires merged.Keys == base.Keys + custom.Keys
    requires forall k :: k in custom ==> merged[k] == custom[k]
    requires forall k :: k in base && k !in custom ==> merged[k] == base[k]
    ensures merged == base + custom
  {
  }

  // ---- the client ----

  class OpenPlatformClient<T> {
    var appKey: string
    var appSecret: string
    var requestUrl: string
    var requestData: Option<T>
    var headers: map<string, string>
    var algorithmType: AlgorithmType
    var isReport: bool
    var productCase: string

    /** The fields, as json.Marshal(c) reads them. */
    function Snapshot(): Config<T>
      reads this
    {
      Config(appKey, appSecret, requestUrl, requestData, headers, algorithmType, isReport, productCase)
    }

    /** NewClient: the three arguments, RSA, no report, everything else empty. */
    constructor (appKey: string, appSecret: string, requestUrl: string)
      ensures Snapshot() == Config(appKey, appSecret, requestUrl, None, map[], RSA, false, "")
    {
      this.appKey := appKey;
      this.appSecret := appSecret;
      this.requestUrl := requestUrl;
      this.requestData := None;
      this.headers := map[];
      this.algorithmType := RSA;
      this.isReport := false;
      this.productCase := "";
    }

    method SetData(data: T) returns (c: OpenPlatformClient<T>)
      modifies this
      ensures c == this
      ensures Snapshot() == old(Snapshot()).(requestData := Some(data))
    {
      requestData := Some(data);
      c := this;
    }

    /** Replaces the header map wholesale (the fresh map the source allocates
        first is overwritten at once). */
    method SetHeader(header: map<string, string>) returns (c: OpenPlatformClient<T>)
      modifies this
      ensures c == this
      ensures Snapshot() == old(Snapshot()).(headers := header)
    {
      headers := header;
      c := this;
    }

    method SetAlgorithmType(algorithmType: AlgorithmType) returns (c: OpenPlatformClient<T>)
      modifies this
      ensures c == this
      ensures Snapshot() == old(Snapshot()).(algorithmType := algorithmType)
    {
      this.algorithmType := algorithmType;
      c := this;
    }

    method SetReport(isReport: bool) returns (c: OpenPlatformClient<T>)
      modifies this
      ensures c == this
      ensures Snapshot() == old(Snapshot()).(isReport := isReport)
    {
      this.isReport := isReport;
      c := this;
    }

    method SetProductCase(productCase: string) returns (c: OpenPlatformClient<T>)
      modifies this
      ensures c == this
      ensures Snapshot() == old(Snapshot()).(productCase := productCase)
    {
      this.productCase := productCase;
      c := this;
    }

    /** The encrypted body: the serialized client through the chunked encryptor. */
    function BodyCipher<D>(env: Environment<T, D>): Result<string, string>
      reads this
    {
      Encrypt.RsaEncoding(env.marshalClient(Snapshot()), env.key, env.cipher)
    }

    /** The signature text: the encrypted sign header, or "" when that
        encryption fails (its error is dropped). */
    function SignText<D>(env: Environment<T, D>): string
      reads this
    {
      match Encrypt.RsaEncoding(env.marshalSignHeader(appKey, appSecret, env.nowMillis), env.key, env.cipher)
      case Ok(sign) => sign
      case Err(_) => ""
    }

    /** secure: fails exactly when the algorithm is not RSA; with RSA it
        never fails, whatever the encryption does. */
    method Secure<D>(env: Environment<T, D>) returns (r: Result<string, string>)
      ensures r.Err? <==> algorithmType != RSA
      ensures r.Err? ==> r.error == UNSUPPORTED_ALGORITHM_MSG
      ensures r.Ok? ==> r.value == SignText(env)
    {
      var headerJson := env.marshalSignHeader(appKey, appSecret, env.nowMillis);
      if algorithmType == RSA {
        var encoded := Encrypt.RsaEncode(headerJson, env.key, env.cipher);
        var sign := if encoded.Ok? then encoded.value else "";
        return Ok(sign);
      } else {
        return Err(UNSUPPORTED_ALGORITHM_MSG);
      }
    }

    /** The request Send hands to the transport once the body is encrypted
        and signed. */
    function WireRequest(endpoint: string, encrypted: string, sign: string): (req: HttpRequest)
      reads this
      ensures req.httpMethod == "POST" && req.url == endpoint
      ensures req.body.Keys == {"encryptData"} && req.body["encryptData"] == encrypted
      ensures req.headers.Keys == FrameworkHeaders(algorithmType, sign).Keys + headers.Keys
      ensures forall k :: k in headers ==> req.headers[k] == headers[k]
      ensures forall k :: k in FrameworkHeaders(algorithmType, sign) && k !in headers ==>
                req.headers[k] == FrameworkHeaders(algorithmType, sign)[k]
      ensures req.timeoutSeconds == TIMEOUT_SECONDS && !req.verifyServerCertificate
    {
      HttpRequest("POST", endpoint, map["encryptData" := encrypted], FrameworkHeaders(algorithmType, sign) + headers,
                  TIMEOUT_SECONDS, VERIFY_SERVER_CERTIFICATE)
    }

    /** The URL is non-empty and the URI parser accepts it. */
    predicate UrlAccepted<D>(env: Environment<T, D>)
      reads this
    {
      requestUrl != "" && env.parsesAsRequestUri(requestUrl)
    }

    /** Send, stage by stage: URL checks, endpoint derivation, body
        encryption, signing, transport, response decoding. Every failure
        before the transport returns at once and sends nothing. */
    method Send<D>(env: Environment<T, D>) returns (o: Outcome<D>)
      ensures requestUrl == "" ==>
        o == Returned(Results.FailWithCodeAndMsg(PARAM_ERROR_STATUS, EMPTY_URL_MSG), None)
      ensures requestUrl != "" && !env.parsesAsRequestUri(requestUrl) ==>
        o == Returned(Results.FailWithCodeAndMsg(PARAM_ERROR_STATUS, MALFORMED_URL_MSG), None)
      ensures UrlAccepted(env) && Endpoint(requestUrl).None? ==> o == Panicked
      ensures UrlAccepted(env) && Endpoint(requestUrl).Some? && BodyCipher(env).Err? ==>
        o == Returned(Results.FailWithCodeAndMsg(PARAM_ERROR_STATUS, BodyCipher(env).error), None)
      ensures UrlAccepted(env) && Endpoint(requestUrl).Some? && BodyCipher(env).Ok? && algorithmType != RSA ==>
        o == Returned(Results.FailWithCodeAndMsg(PARAM_ERROR_STATUS, UNSUPPORTED_ALGORITHM_MSG), None)
      ensures UrlAccepted(env) && Endpoint(requestUrl).Some? && BodyCipher(env).Ok? && algorithmType == RSA ==>
        var request := WireRequest(Endpoint(requestUrl).value, BodyCipher(env).value, SignText(env));
        o.Returned? && o.sent == Some(request) &&
        match env.transport(request)
        case Err(_) => o.result == Results.FailWithResultCode(Constant.CALL_FAILED)
        case Ok(body) =>
          match env.unmarshalResult(body)
          case None => o.result == Results.FailWithResultCode(Constant.RESPONSE_CONVERSION_ERROR)
          case Some(parsed) => o.result == parsed
    {
      if requestUrl == "" {
        return Returned(Results.FailWithCodeAndMsg(PARAM_ERROR_STATUS, EMPTY_URL_MSG), None);
      }
      if !env.parsesAsRequestUri(requestUrl) {
        return Returned(Results.FailWithCodeAndMsg(PARAM_ERROR_STATUS, MALFORMED_URL_MSG), None);
      }
      var endpoint := Endpoint(requestUrl);
      if endpoint.None? {
        return Panicked;
      }

      var jsonStr := env.marshalClient(Snapshot());
      var enc := Encrypt.RsaEncode(jsonStr, env.key, env.cipher);
      if enc.Err? {
        return Returned(Results.FailWithCodeAndMsg(PARAM_ERROR_STATUS, enc.error), None);
      }
      var requestBody := map["encryptData" := enc.value];

      var sign := Secure(env);
      if sign.Err? {
        return Returned(Results.FailWithCodeAndMsg(PARAM_ERROR_STATUS, sign.error), None);
      }
      var requestHeaders := MergeHeaders(FrameworkHeaders(algorithmType, sign.value), headers);
      MergedIsUnion(FrameworkHeaders(algorithmType, sign.value), headers, requestHeaders);
      var request := HttpRequest("POST", endpoint.value, requestBody, requestHeaders,
                                 TIMEOUT_SECONDS, VERIFY_SERVER_CERTIFICATE);
      assert request == WireRequest(endpoint.value, enc.value, sign.value);

      var response := env.transport(request);
      if response.Err? {
        return Returned(Results.FailWithResultCode(Constant.CALL_FAILED), Some(request));
      }
      var result := env.unmarshalResult(response.value);
      if result.None? {
        return Returned(Results.FailWithResultCode(Constant.RESPONSE_CONVERSION_ERROR), Some(request));
      }
      return Returned(result.value, Some(request));
    }
  }

  /** The status literal of Send's validation failures is the table's
      REQUEST_PARAM_NOT_NULL, though the messages are Send's own. */
  lemma ParamErrorStatusIsParamNotNull()
    ensures PARAM_ERROR_STATUS == Constant.REQUEST_PARAM_NOT_NULL.Status()
    ensures EMPTY_URL_MSG != Constant.REQUEST_PARAM_NOT_NULL.Msg()
  {
  }
}
