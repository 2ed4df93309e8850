/**
 * One REST call (RestRequest.swift): building the `URLRequest` from the request's fields,
 * the `response` ladder that turns authentication, URL building and the transport's answer into
 * one completion, and the wrappers that turn a completion into a typed result.
 *
 * Callbacks are flattened: the authenticator's answer, the transport's answer and every library
 * routine (URL parsing, query encoding, the error-body decoder, the status-code phrase, UTF-8 and
 * JSON decoding, moving a file) are inputs.
 */
module RestRequest {
  import opened Wrappers
  import opened Text
  import opened RestErrors

  newtype byte = x: int | 0 <= x < 256
  type Data = seq<byte>

  // ---------------------------------------------------------------------------------------------
  // The request and its construction

  datatype QueryItem = QueryItem(name: string, value: Option<string>)

  datatype Request = Request(
    httpMethod: string,
    url: string,
    headerParameters: map<string, string>,
    queryItems: seq<QueryItem>,
    messageBody: Option<Data>)

  /** `RestRequest.init`: a nil list of query items is stored as the empty list. */
  function NewRequest(httpMethod: string, url: string, headerParameters: map<string, string>,
                      queryItems: Option<seq<QueryItem>>, messageBody: Option<Data>): (r: Request)
    ensures r.queryItems == (if queryItems.Some? then queryItems.value else [])
    ensures r.httpMethod == httpMethod && r.url == url && r.headerParameters == headerParameters
    ensures r.messageBody == messageBody
  {
    Request(httpMethod, url, headerParameters, if queryItems.Some? then queryItems.value else [], messageBody)
  }

  // ---------------------------------------------------------------------------------------------
  // The `+` rewrite of the percent-encoded query

  /** What one character of the query becomes. */
  function EscapeChar(c: char): string
  {
    if c == '+' then "%2B" else [c]
  }

  /** `replacingOccurrences(of: "+", with: "%2B")`: no `+` is left. */
  function EscapePlus(s: string): (r: string)
    ensures '+' !in r
  {
    if |s| == 0 then "" else EscapeChar(s[0]) + EscapePlus(s[1..])
  }

  /** The number of `+` characters in a string. */
  function PlusCount(s: string): (n: nat)
    ensures n <= |s|
    ensures n == 0 <==> '+' !in s
  {
    if |s| == 0 then 0 else (if s[0] == '+' then 1 else 0) + PlusCount(s[1..])
  }

  /** Each `+` grows by two characters and every other character stays one. */
  lemma {:induction false} EscapePlusLength(s: string)
    ensures |EscapePlus(s)| == |s| + 2 * PlusCount(s)
  {
    if |s| > 0 {
      EscapePlusLength(s[1..]);
    }
  }

  /** Reference inverse: turn each `%2B` back into `+`, scanning left to right. */
  function UnescapePlus(t: string): string
  {
    if |t| >= 3 && t[..3] == "%2B" then "+" + UnescapePlus(t[3..])
    else if |t| == 0 then ""
    else [t[0]] + UnescapePlus(t[1..])
  }

  /** Whether `%2B` already occurs in a string. */
  predicate HasEscapedPlus(s: string)
  {
    |s| >= 3 && (s[..3] == "%2B" || HasEscapedPlus(s[1..]))
  }

  /** The rewritten string starts with "2B" only if the original did. */
  lemma EscapePlusStart(s: string)
    ensures |EscapePlus(s)| >= 2 && EscapePlus(s)[..2] == "2B" ==> |s| >= 2 && s[..2] == "2B"
  {
    if |s| >= 2 && s[0] == '2' {
      var u := s[1..];
      assert EscapePlus(s) == [s[0]] + EscapePlus(u);
      assert EscapePlus(u) == EscapeChar(u[0]) + EscapePlus(u[1..]);
      assert s[..2] == [s[0], u[0]];
    } else if |s| >= 1 {
      assert EscapePlus(s) == EscapeChar(s[0]) + EscapePlus(s[1..]);
      assert |EscapePlus(s)| >= 2 ==> EscapePlus(s)[0] != '2';
    }
  }

  /** Every original `+` becomes `%2B` and nothing else changes: undoing the rewrite gives the
      query back, whenever the query did not already hold `%2B`. */
  lemma {:induction false} EscapePlusRoundTrip(s: string)
    requires !HasEscapedPlus(s)
    ensures UnescapePlus(EscapePlus(s)) == s
  {
    if |s| > 0 {
      var rest := s[1..];
      assert !HasEscapedPlus(rest);
      EscapePlusRoundTrip(rest);
      var t := EscapePlus(s);
      assert t == EscapeChar(s[0]) + EscapePlus(rest);
      if s[0] == '+' {
        assert t[..3] == "%2B" && t[3..] == EscapePlus(rest);
      } else {
        EscapePlusStart(rest);
        assert t[1..] == EscapePlus(rest);
        assert |t| >= 3 ==> t[..3] == [s[0]] + EscapePlus(rest)[..2];
        assert |s| >= 3 ==> s[..3] == [s[0]] + rest[..2];
        assert UnescapePlus(t) == [s[0]] + UnescapePlus(t[1..]);
        assert s == [s[0]] + rest;
      }
    }
  }

  /** A query without `+` is left as it is. */
  lemma {:induction false} EscapePlusKeepsPlusFree(s: string)
    requires '+' !in s
    ensures EscapePlus(s) == s
  {
    if |s| > 0 {
      assert s == [s[0]] + s[1..];
      EscapePlusKeepsPlusFree(s[1..]);
    }
  }

  // ---------------------------------------------------------------------------------------------
  // Building the URLRequest

  /** What `URLComponents` holds: everything up to the query, and the percent-encoded query. */
  datatype Components = Components(location: string, percentEncodedQuery: Option<string>)

  /** The Foundation routines the builder calls: `URLComponents(string:)`, the percent-encoded
      query that assigning `queryItems` produces, and `components.url`. */
  datatype UrlLibrary = UrlLibrary(
    parse: string -> Option<Components>,
    encodeQueryItems: seq<QueryItem> -> string,
    render: Components -> Option<string>)

  /** The components after the query items are set (only when there are any) and `+` is rewritten. */
  function PreparedComponents(c: Components, items: seq<QueryItem>, lib: UrlLibrary): (p: Components)
    ensures p.location == c.location
    ensures p.percentEncodedQuery.Some? <==> c.percentEncodedQuery.Some? || |items| > 0
    ensures p.percentEncodedQuery.Some? ==> '+' !in p.percentEncodedQuery.value
    ensures |items| > 0 ==> p.percentEncodedQuery == Some(EscapePlus(lib.encodeQueryItems(items)))
    ensures |items| == 0 ==> p.percentEncodedQuery == MapOption(c.percentEncodedQuery, EscapePlus)
  {
    var withItems := if |items| > 0 then c.(percentEncodedQuery := Some(lib.encodeQueryItems(items))) else c;
    withItems.(percentEncodedQuery := MapOption(withItems.percentEncodedQuery, EscapePlus))
  }

  /** A request made without query items keeps the URL's own query, with only `+` rewritten. */
  lemma NilQueryItemsKeepURLQuery(httpMethod: string, url: string, headers: map<string, string>,
                                  body: Option<Data>, c: Components, lib: UrlLibrary)
    ensures PreparedComponents(c, NewRequest(httpMethod, url, headers, None, body).queryItems, lib) ==
            c.(percentEncodedQuery := MapOption(c.percentEncodedQuery, EscapePlus))
  {
  }

  datatype URLRequest = URLRequest(url: string, httpMethod: string, httpBody: Option<Data>, headers: map<string, string>)

  const UserAgentField := "User-Agent"

  /** Header field names compare without regard to case, so a field is stored under its lower-cased name. */
  function FieldKey(name: string): string
  {
    Lower(name)
  }

  /** `request.setValue(value, forHTTPHeaderField: name)`: replaces the field, whatever case it was set in. */
  function SetValue(headers: map<string, string>, name: string, value: string): (h: map<string, string>)
    ensures h.Keys == headers.Keys + {FieldKey(name)}
    ensures h[FieldKey(name)] == value
    ensures forall n :: n in headers && n != FieldKey(name) ==> h[n] == headers[n]
  {
    headers[FieldKey(name) := value]
  }

  /** The header fields after the default User-Agent and then every caller header were set, in some
      order: one field per caller name plus User-Agent; each field holds the value of a caller header
      of that name, and User-Agent holds the default only when no caller header names it. */
  ghost predicate HeadersApplied(h: map<string, string>, userAgent: string, params: map<string, string>)
  {
    && h.Keys == {FieldKey(UserAgentField)} + (set k | k in params :: FieldKey(k))
    && forall n :: n in h ==>
         || (exists k :: k in params && FieldKey(k) == n && h[n] == params[k])
         || (n == FieldKey(UserAgentField) && h[n] == userAgent && forall k :: k in params ==> FieldKey(k) != n)
  }

  /** Setting one more caller header keeps the relation. */
  lemma ApplyOneHeader(h: map<string, string>, userAgent: string, params: map<string, string>, k: string, v: string)
    requires HeadersApplied(h, userAgent, params) && k !in params
    ensures HeadersApplied(SetValue(h, k, v), userAgent, params[k := v])
  {
  }

  /** The header steps of `urlRequest`: the default User-Agent, then `forEach` over the caller headers. */
  method ApplyHeaders(userAgent: string, params: map<string, string>) returns (headers: map<string, string>)
    ensures HeadersApplied(headers, userAgent, params)
  {
    headers := SetValue(map[], UserAgentField, userAgent);
    var remaining := params.Keys;
    assert params - remaining == map[];
    while remaining != {}
      invariant remaining <= params.Keys
      invariant HeadersApplied(headers, userAgent, params - remaining)
      decreases remaining
    {
      var k :| k in remaining;
      ApplyOneHeader(headers, userAgent, params - remaining, k, params[k]);
      assert (params - remaining)[k := params[k]] == params - (remaining - {k});
      headers := SetValue(headers, k, params[k]);
      remaining := remaining - {k};
    }
    assert params - remaining == params;
  }

  /** What `urlRequest` yields for `req`: nil exactly when the URL does not parse or the prepared
      components cannot be rendered; otherwise the rendered URL, the request's method and body, and
      the headers set from the default User-Agent and every caller header. */
  ghost predicate URLRequestFor(req: Request, lib: UrlLibrary, userAgent: string, r: Option<URLRequest>)
  {
    && (r.None? <==>
          lib.parse(req.url).None? || lib.render(PreparedComponents(lib.parse(req.url).value, req.queryItems, lib)).None?)
    && (r.Some? ==>
          && r.value.url == lib.render(PreparedComponents(lib.parse(req.url).value, req.queryItems, lib)).value
          && r.value.httpMethod == req.httpMethod
          && r.value.httpBody == req.messageBody
          && HeadersApplied(r.value.headers, userAgent, req.headerParameters))
  }

  /** The `urlRequest` property: parse the URL, set the query items, rewrite `+`, build the URL,
      then set method, body, the default User-Agent and every caller header, in that order. */
  method BuildURLRequest(req: Request, lib: UrlLibrary, userAgent: string) returns (r: Option<URLRequest>)
    ensures URLRequestFor(req, lib, userAgent, r)
  {
    var parsed := lib.parse(req.url);
    if parsed.None? {
      return None;
    }
    var components := parsed.value;
    if |req.queryItems| != 0 {
      components := components.(percentEncodedQuery := Some(lib.encodeQueryItems(req.queryItems)));
    }
    components := components.(percentEncodedQuery := MapOption(components.percentEncodedQuery, EscapePlus));
    var url := lib.render(components);
    if url.None? {
      return None;
    }
    var headers := ApplyHeaders(userAgent, req.headerParameters);
    r := Some(URLRequest(url.value, req.httpMethod, req.messageBody, headers));
  }

  /** What a URL-request builder must do to stand in for `BuildURLRequest`: its postcondition, for
      every request. */
  ghost predicate IsURLRequestBuilder(urlRequestOf: Request -> Option<URLRequest>, lib: UrlLibrary, userAgent: string)
  {
    forall req: Request :: URLRequestFor(req, lib, userAgent, urlRequestOf(req))
  }

  /** Caller headers are applied after the default User-Agent: a caller header whose name no other
      caller header shares (ignoring case) is sent with its value, a caller `User-Agent` included,
      and the default User-Agent is sent only when no caller header names that field. */
  lemma CallerHeadersOverride(h: map<string, string>, userAgent: string, params: map<string, string>, k: string)
    requires HeadersApplied(h, userAgent, params)
    requires k in params && forall k' :: k' in params && FieldKey(k') == FieldKey(k) ==> k' == k
    ensures FieldKey(k) in h && h[FieldKey(k)] == params[k]
    ensures (forall k' :: k' in params ==> FieldKey(k') != FieldKey(UserAgentField)) ==> h[FieldKey(UserAgentField)] == userAgent
  {
  }

  // ---------------------------------------------------------------------------------------------
  // The response ladder

  datatype HTTPResponse = HTTPResponse(statusCode: int, headers: map<string, string>)

  /** What the transport hands back as a response: an HTTP response or some other kind. */
  datatype URLResponse = HttpURLResponse(http: HTTPResponse) | OtherURLResponse

  /** `response as? HTTPURLResponse`. */
  function AsHTTP(r: Option<URLResponse>): Option<HTTPResponse>
  {
    if r.Some? && r.value.HttpURLResponse? then Some(r.value.http) else None
  }

  /** The errors a call can report: the `RestError` cases, the cases the request code uses besides
      them (`failure`, `serializationError`, `invalidFile`, `fileManagerError`), and any error
      produced elsewhere (an authenticator, the transport, a decoder), passed on as it is. */
  datatype RequestError =
    | Rest(restError: RestError)
    | GenericFailure(statusCode: int, message: string)
    | SerializationError
    | InvalidFile
    | FileManagerError
    | Foreign(description: string)

  /** What `authenticate` passes to its completion: the authenticated request and an error, each optional. */
  datatype AuthOutcome = AuthOutcome(request: Option<Request>, error: Option<RequestError>)

  predicate Authenticated(a: AuthOutcome)
  {
    a.request.Some? && a.error.None?
  }

  /** What the data task passes to its completion. */
  datatype TaskOutcome = TaskOutcome(data: Option<Data>, response: Option<URLResponse>, error: Option<RequestError>)

  /** The `(Data?, HTTPURLResponse?, Error?)` triple handed to the caller of `response`. */
  datatype Completion = Completion(data: Option<Data>, response: Option<HTTPResponse>, error: Option<RequestError>)

  /** The request that went out, if any, and the completion. */
  datatype Execution = Execution(sent: Option<URLRequest>, completion: Completion)

  predicate IsSuccessStatus(code: int)
  {
    200 <= code < 300
  }

  /** The data task's completion handler: a transport error wins over everything and is passed on
      unchanged; then a missing HTTP response is `noResponse`; then a 2xx status is success; any
      other status is the decoder's error when there is a body and a generic failure otherwise. */
  function ClassifyTask(t: TaskOutcome, decodeError: (Data, HTTPResponse) -> RequestError,
                        statusMessage: int -> string): (c: Completion)
    ensures t.error.Some? ==> c == Completion(t.data, AsHTTP(t.response), t.error)
    ensures t.error.None? && AsHTTP(t.response).None? ==> c == Completion(t.data, None, Some(Rest(NoResponse)))
    ensures t.error.None? && AsHTTP(t.response).Some? ==> c.data == t.data && c.response == AsHTTP(t.response)
    ensures c.error.None? <==>
      t.error.None? && AsHTTP(t.response).Some? && IsSuccessStatus(AsHTTP(t.response).value.statusCode)
    ensures t.error.None? && AsHTTP(t.response).Some? && !IsSuccessStatus(AsHTTP(t.response).value.statusCode) ==>
      c.error == Some(if t.data.Some? then decodeError(t.data.value, AsHTTP(t.response).value)
                      else GenericFailure(AsHTTP(t.response).value.statusCode,
                                          statusMessage(AsHTTP(t.response).value.statusCode)))
  {
    if t.error.Some? then Completion(t.data, AsHTTP(t.response), t.error)
    else match AsHTTP(t.response)
      case None => Completion(t.data, None, Some(Rest(NoResponse)))
      case Some(response) =>
        if !IsSuccessStatus(response.statusCode) then
          if t.data.Some? then Completion(t.data, Some(response), Some(decodeError(t.data.value, response)))
          else Completion(t.data, Some(response), Some(GenericFailure(response.statusCode, statusMessage(response.statusCode))))
        else Completion(t.data, Some(response), None)
  }

  /** `response(completionHandler:)`. A failed authentication (an error, or no request) is reported
      as `(nil, nil, error)` and nothing is sent; a request whose URL cannot be built is `badURL` and
      nothing is sent; otherwise exactly the URL request built from the AUTHENTICATED request is sent
      and the transport's answer is classified. */
  function Response(auth: AuthOutcome, urlRequestOf: Request -> Option<URLRequest>,
                    send: URLRequest -> TaskOutcome, decodeError: (Data, HTTPResponse) -> RequestError,
                    statusMessage: int -> string): (x: Execution)
    ensures !Authenticated(auth) ==> x == Execution(None, Completion(None, None, auth.error))
    ensures Authenticated(auth) && urlRequestOf(auth.request.value).None? ==>
      x == Execution(None, Completion(None, None, Some(Rest(BadURL))))
    ensures x.sent.Some? <==> Authenticated(auth) && urlRequestOf(auth.request.value).Some?
    ensures x.sent.Some? ==>
      x.sent == urlRequestOf(auth.request.value) && x.completion == ClassifyTask(send(x.sent.value), decodeError, statusMessage)
  {
    if !Authenticated(auth) then Execution(None, Completion(None, None, auth.error))
    else match urlRequestOf(auth.request.value)
      case None => Execution(None, Completion(None, None, Some(Rest(BadURL))))
      case Some(urlRequest) => Execution(Some(urlRequest), ClassifyTask(send(urlRequest), decodeError, statusMessage))
  }

  /** With a builder that behaves as `BuildURLRequest`, an authenticated call reports `badURL` and
      sends nothing exactly when the URL cannot be parsed or rendered; otherwise what goes out carries
      the request's method, body and headers. */
  lemma ResponseBadURLIff(auth: AuthOutcome, urlRequestOf: Request -> Option<URLRequest>, lib: UrlLibrary, userAgent: string,
                          send: URLRequest -> TaskOutcome, decodeError: (Data, HTTPResponse) -> RequestError,
                          statusMessage: int -> string)
    requires IsURLRequestBuilder(urlRequestOf, lib, userAgent) && Authenticated(auth)
    ensures var x := Response(auth, urlRequestOf, send, decodeError, statusMessage);
      var req := auth.request.value;
      && (x.sent.None? <==>
            lib.parse(req.url).None? || lib.render(PreparedComponents(lib.parse(req.url).value, req.queryItems, lib)).None?)
      && (x.sent.None? ==> x.completion == Completion(None, None, Some(Rest(BadURL))))
      && (x.sent.Some? ==>
            && x.sent.value.httpMethod == req.httpMethod
            && x.sent.value.httpBody == req.messageBody
            && HeadersApplied(x.sent.value.headers, userAgent, req.headerParameters))
  {
  }

  /** The completion carries no error exactly when a request was sent and answered with a 2xx
      status, or when the authenticator reported neither a request nor an error. */
  lemma ResponseErrorFree(auth: AuthOutcome, urlRequestOf: Request -> Option<URLRequest>,
                          send: URLRequest -> TaskOutcome, decodeError: (Data, HTTPResponse) -> RequestError,
                          statusMessage: int -> string)
    ensures var x := Response(auth, urlRequestOf, send, decodeError, statusMessage);
      x.completion.error.None? <==>
        || (auth.request.None? && auth.error.None?)
        || (x.sent.Some? && send(x.sent.value).error.None? && AsHTTP(send(x.sent.value).response).Some? &&
            IsSuccessStatus(AsHTTP(send(x.sent.value).response).value.statusCode))
  {
  }

  // ---------------------------------------------------------------------------------------------
  // Typed results

  datatype RestResponse<T> = RestResponse(response: Option<HTTPResponse>, data: Option<Data>, result: Result<T, RequestError>)

  /** `responseData`: an error is passed on, no body is `noData`, otherwise the body is the result. */
  function ResponseData(c: Completion): (r: RestResponse<Data>)
    ensures r.response == c.response
    ensures c.error.Some? ==> r.result == Failure(c.error.value) && r.data == c.data
    ensures c.error.None? && c.data.None? ==> r.result == Failure(Rest(NoData)) && r.data.None?
    ensures r.result.Success? <==> c.error.None? && c.data.Some?
    ensures r.result.Success? ==> r.data == c.data && r.result.value == c.data.value
  {
    if c.error.Some? then RestResponse(c.response, c.data, Failure(c.error.value))
    else if c.data.None? then RestResponse(c.response, None, Failure(Rest(NoData)))
    else RestResponse(c.response, c.data, Success(c.data.value))
  }

  /** `responseObject`: as `responseData`, then the body goes through the JSON decoder, whose error is the result on failure. */
  function ResponseObject<T>(c: Completion, decode: Data -> Result<T, RequestError>): (r: RestResponse<T>)
    ensures r.response == c.response
    ensures c.error.Some? ==> r.result == Failure(c.error.value) && r.data == c.data
    ensures c.error.None? && c.data.None? ==> r.result == Failure(Rest(NoData)) && r.data.None?
    ensures c.error.None? && c.data.Some? ==> r.result == decode(c.data.value) && r.data == c.data
  {
    if c.error.Some? then RestResponse(c.response, c.data, Failure(c.error.value))
    else if c.data.None? then RestResponse(c.response, None, Failure(Rest(NoData)))
    else RestResponse(c.response, c.data, decode(c.data.value))
  }

  /** `responseString`: as `responseData`, then a body that is not UTF-8 is a serialization failure
      reported WITHOUT the body. */
  function ResponseString(c: Completion, utf8: Data -> Option<string>): (r: RestResponse<string>)
    ensures r.response == c.response
    ensures c.error.Some? ==> r.result == Failure(c.error.value) && r.data == c.data
    ensures c.error.None? && c.data.None? ==> r.result == Failure(Rest(NoData)) && r.data.None?
    ensures c.error.None? && c.data.Some? && utf8(c.data.value).None? ==>
      r.result == Failure(SerializationError) && r.data.None?
    ensures r.result.Success? <==> c.error.None? && c.data.Some? && utf8(c.data.value).Some?
    ensures r.result.Success? ==> r.result.value == utf8(c.data.value).value && r.data == c.data
  {
    if c.error.Some? then RestResponse(c.response, c.data, Failure(c.error.value))
    else if c.data.None? then RestResponse(c.response, None, Failure(Rest(NoData)))
    else match utf8(c.data.value)
      case None => RestResponse(c.response, None, Failure(SerializationError))
      case Some(text) => RestResponse(c.response, c.data, Success(text))
  }

  /** `responseVoid`: succeeds whenever there is no error, with or without a body. */
  function ResponseVoid(c: Completion): (r: RestResponse<()>)
    ensures r.response == c.response && r.data == c.data
    ensures r.result.Success? <==> c.error.None?
    ensures c.error.Some? ==> r.result == Failure(c.error.value)
  {
    if c.error.Some? then RestResponse(c.response, c.data, Failure(c.error.value))
    else RestResponse(c.response, c.data, Success(()))
  }

  /** End to end, `responseData` succeeds exactly when the request was authenticated, its URL built,
      and the transport answered without error with a 2xx HTTP response carrying a body. */
  lemma ResponseDataSucceedsIff(auth: AuthOutcome, urlRequestOf: Request -> Option<URLRequest>,
                                send: URLRequest -> TaskOutcome, decodeError: (Data, HTTPResponse) -> RequestError,
                                statusMessage: int -> string)
    ensures var x := Response(auth, urlRequestOf, send, decodeError, statusMessage);
      ResponseData(x.completion).result.Success? <==>
        && Authenticated(auth) && urlRequestOf(auth.request.value).Some?
        && var t := send(urlRequestOf(auth.request.value).value);
           t.error.None? && AsHTTP(t.response).Some? && IsSuccessStatus(AsHTTP(t.response).value.statusCode) && t.data.Some?
  {
  }

  /** An authenticator that reports neither a request nor an error sends nothing; `responseData`
      then reports `noData`, while `responseVoid` reports success. */
  lemma SilentAuthenticator(urlRequestOf: Request -> Option<URLRequest>, send: URLRequest -> TaskOutcome,
                            decodeError: (Data, HTTPResponse) -> RequestError, statusMessage: int -> string)
    ensures var x := Response(AuthOutcome(None, None), urlRequestOf, send, decodeError, statusMessage);
      && x.sent.None?
      && ResponseData(x.completion).result == Failure(Rest(NoData))
      && ResponseVoid(x.completion).result.Success?
  {
  }

  /** A bodiless success, such as 204, is a success for `responseVoid` and `noData` for `responseData`. */
  lemma BodilessSuccess(response: HTTPResponse, decodeError: (Data, HTTPResponse) -> RequestError, statusMessage: int -> string)
    requires IsSuccessStatus(response.statusCode)
    ensures var c := ClassifyTask(TaskOutcome(None, Some(HttpURLResponse(response)), None), decodeError, statusMessage);
      ResponseVoid(c).result.Success? && ResponseData(c).result == Failure(Rest(NoData))
  {
  }

  // ---------------------------------------------------------------------------------------------
  // Downloads

  /** What the download task passes to its completion: the temporary file, the response, an error. */
  datatype DownloadTaskOutcome = DownloadTaskOutcome(location: Option<string>, response: Option<URLResponse>, error: Option<RequestError>)

  datatype DownloadCompletion = DownloadCompletion(response: Option<HTTPResponse>, error: Option<RequestError>)

  datatype DownloadExecution = DownloadExecution(sent: Option<URLRequest>, completion: DownloadCompletion)

  /** The download task's completion handler. The status code is never looked at: once there is no
      error, an HTTP response and a temporary file, the only failure left is the file move. */
  function ClassifyDownload(t: DownloadTaskOutcome, destination: string, moveItem: (string, string) -> bool): (c: DownloadCompletion)
    ensures t.error.Some? ==> c == DownloadCompletion(AsHTTP(t.response), t.error)
    ensures t.error.None? && AsHTTP(t.response).None? ==> c == DownloadCompletion(None, Some(Rest(NoResponse)))
    ensures t.error.None? && AsHTTP(t.response).Some? && t.location.None? ==>
      c == DownloadCompletion(AsHTTP(t.response), Some(InvalidFile))
    ensures c.error.None? <==>
      t.error.None? && AsHTTP(t.response).Some? && t.location.Some? && moveItem(t.location.value, destination)
    ensures t.error.None? && AsHTTP(t.response).Some? && t.location.Some? ==>
      c == DownloadCompletion(AsHTTP(t.response), if moveItem(t.location.value, destination) then None else Some(FileManagerError))
  {
    if t.error.Some? then DownloadCompletion(AsHTTP(t.response), t.error)
    else match AsHTTP(t.response)
      case None => DownloadCompletion(None, Some(Rest(NoResponse)))
      case Some(response) =>
        match t.location
        case None => DownloadCompletion(Some(response), Some(InvalidFile))
        case Some(location) =>
          if moveItem(location, destination) then DownloadCompletion(Some(response), None)
          else DownloadCompletion(Some(response), Some(FileManagerError))
  }

  /** Two answers that differ only in their status code give the same error. */
  lemma DownloadIgnoresStatusCode(t: DownloadTaskOutcome, code: int, destination: string, moveItem: (string, string) -> bool)
    requires AsHTTP(t.response).Some?
    ensures var other := t.(response := Some(HttpURLResponse(AsHTTP(t.response).value.(statusCode := code))));
      ClassifyDownload(other, destination, moveItem).error == ClassifyDownload(t, destination, moveItem).error
  {
  }

  /** `download(to:completionHandler:)`: the same authentication and URL guards as `response`, then the download task. */
  function Download(auth: AuthOutcome, urlRequestOf: Request -> Option<URLRequest>,
                    send: URLRequest -> DownloadTaskOutcome, destination: string,
                    moveItem: (string, string) -> bool): (x: DownloadExecution)
    ensures !Authenticated(auth) ==> x == DownloadExecution(None, DownloadCompletion(None, auth.error))
    ensures Authenticated(auth) && urlRequestOf(auth.request.value).None? ==>
      x == DownloadExecution(None, DownloadCompletion(None, Some(Rest(BadURL))))
    ensures x.sent.Some? <==> Authenticated(auth) && urlRequestOf(auth.request.value).Some?
    ensures x.sent.Some? ==>
      x.sent == urlRequestOf(auth.request.value) && x.completion == ClassifyDownload(send(x.sent.value), destination, moveItem)
  {
    if !Authenticated(auth) then DownloadExecution(None, DownloadCompletion(None, auth.error))
    else match urlRequestOf(auth.request.value)
      case None => DownloadExecution(None, DownloadCompletion(None, Some(Rest(BadURL))))
      case Some(urlRequest) => DownloadExecution(Some(urlRequest), ClassifyDownload(send(urlRequest), destination, moveItem))
  }
}
