# RestKit request pipeline and credential configuration, in Dafny

A model of the core of RestKit, the Swift networking layer of the Watson SDK. It covers four parts:

- **The REST call** (`RestRequest.dfy`, module `RestRequest`).
  - Building the `URLRequest`: parse the URL, set the query items, rewrite every `+` of the query to `%2B`, then set the method and the body. Last, set the default User-Agent and then every caller header.
  - The `response` decision ladder: authentication, then the URL, then the transport error, then the presence of an HTTP response, then the status code.
  - The `responseData` / `responseObject` / `responseString` / `responseVoid` / `download` result mappings.
- **The error type** (`RestErrors.dfy`): `RestError`, `statusCode` and `errorDescription`.
- **The credentials-file parser** (`Helpers.dfy`): `extractEnvironmentVariablesFromFile`, taken over the file's lines.
- **Config-based authenticator selection** (`ConfigFactory.dfy`).
  - Precedence of the configuration sources.
  - Inference of the auth type for service-binding (VCAP) credentials.
  - The `auth_type` default and parsing.
  - The required-key checks of each authenticator kind.

The URL builder is a method. Its header loop visits the caller's headers in an unspecified order, as Swift's dictionary iteration does. Everything else is functions and lemmas. The callbacks of `response` are flattened into inputs:
- the authenticator's `(request?, error?)` answer;
- a URL builder `Request -> URLRequest?`;
- the transport, `URLRequest -> (data?, response?, error?)`;
- the error-body decoder;
- the status-code phrase function.

The result is the request actually sent, if any, plus the completion triple. Header field names are compared without regard to case, as `URLRequest.setValue(_:forHTTPHeaderField:)` does; a field is stored under its lower-cased name.

`RestRequest.swift` uses error cases that `RestError.swift` does not declare (`failure`, `serializationError`, `invalidFile`, `fileManagerError`). The model gives them one error type, `RequestError`. It wraps `RestError`, adds those four cases, and adds `Foreign` for errors from elsewhere, which are passed on unchanged. The auth-type key is `"auth_type"`, the raw value at `ConfigBasedAuthenticatorFactory.swift:38`.

Where a test and the code disagree, the code is followed. Credentials holding only an api key and no `auth_type` build an IAM authenticator, because a missing type defaults to `iam`. The test at `Tests/RestKitTests/ConfigBasedAuthenticatorFactoryTests-Linux.swift:557-585` expects an error in that case.

## Model

| member | source | states |
|---|---|---|
| RestErrors.StatusCode | Sources/RestKit/RestError.swift:51-58 | a status code is present only for `http`, and then it is the code the case carries; every other case has none |
| RestErrors.ErrorDescription | Sources/RestKit/RestError.swift:61-78 | the description of `http` is exactly its message; every other case has a fixed, non-empty description |
| RestErrors.DescriptionsDistinct | Sources/RestKit/RestError.swift:63-74 | no two non-`http` cases share a description |
| Helpers.FirstEquals | Sources/RestKit/Helpers.swift:29 | finds the FIRST `=` of a line: the index holds `=` and no `=` comes before it; none means the line holds no `=` |
| Helpers.SplitOnce | Sources/RestKit/Helpers.swift:29 | `split(separator: "=", maxSplits: 1)` gives at most two pieces, none of them empty; the first holds no `=`; with two pieces, the leading `=`s, the first piece, `=` and the second piece give the line back |
| Helpers.SplitOnceNone | Sources/RestKit/Helpers.swift:29 | the split gives no piece exactly when the line is nothing but `=`s (the empty line included) |
| Helpers.SplitOnceTwo | Sources/RestKit/Helpers.swift:29 | the split gives two pieces exactly when an `=` follows the leading `=`s with at least one character after it |
| Helpers.SplitOnceOne | Sources/RestKit/Helpers.swift:29 | a single piece is the line without its leading `=`s, either whole or without one trailing `=` |
| Helpers.LeadingSeparatorsSkipped | Sources/RestKit/Helpers.swift:29 | empty pieces are omitted, so leading `=`s are skipped: every line splits as the line without them does |
| Helpers.SplitLine | Sources/RestKit/Helpers.swift:29-33 | the split is lossless: leading `=`s + name + `=` + value is the line; the name holds no `=`, so the value may; the value is copied verbatim; a non-empty prefix not starting with `=` leaves no leading `=` on a kept line, and then the lower-cased name is the lower-cased prefix, then ONE character of any kind, then the key |
| Helpers.KeptLines | Sources/RestKit/Helpers.swift:27 | keeps only lines whose lower-cased form starts with the lower-cased prefix, never more lines than the file has |
| Helpers.KeptLinesSnoc | Sources/RestKit/Helpers.swift:27 | the filter keeps file order and repeated lines: a line added at the end is added to the kept lines exactly when it matches |
| Helpers.MergeKeys | Sources/RestKit/Helpers.swift:28-35 | every kept line's key is in the merged map, no other key is, and the last kept line's value is on top |
| Helpers.ExtractEnvironmentVariables | Sources/RestKit/Helpers.swift:20-37 | an unreadable file gives nil; a readable file without matching lines gives an empty map, not nil |
| Helpers.ExtractSnoc | Sources/RestKit/Helpers.swift:28-35 | a matching line appended to the file adds its own key and value on top of the earlier result; any other line changes nothing |
| Helpers.ResultKeys | Sources/RestKit/Helpers.swift:26-36 | a key is in the map exactly when some kept line yields it |
| Helpers.LastLineWins | Sources/RestKit/Helpers.swift:26-36 | a key's value is that of the LAST kept line yielding it |
| ConfigFactory.ParseAuthType | Sources/RestKit/Authentication/ConfigBasedAuthenticatorFactory.swift:29-35 | accepts exactly the case-sensitive strings `iam`, `basic`, `cp4d`, `noauth`, `bearerToken`, and gives back the type whose raw value the string is |
| ConfigFactory.ParseRawValue | Sources/RestKit/Authentication/ConfigBasedAuthenticatorFactory.swift:29-35 | every type parses back from its raw value |
| ConfigFactory.FirstMissing | Sources/RestKit/Authentication/ConfigBasedAuthenticatorFactory.swift:162-204 | the checking order of the guards: the reported key is missing and every key before it is present; none is reported only when all are present |
| ConfigFactory.BuildBasicAuthenticator | Sources/RestKit/Authentication/ConfigBasedAuthenticatorFactory.swift:162-173 | succeeds exactly when `username` and `password` are both present; `username` is checked first, so it is the one named when both are missing; then `password`; otherwise a basic authenticator from those two values |
| ConfigFactory.BuildIAMAuthenticator | Sources/RestKit/Authentication/ConfigBasedAuthenticatorFactory.swift:175-182 | succeeds exactly when `apikey` is present; without it the error names `apikey`; otherwise an IAM authenticator from that value |
| ConfigFactory.BuildTokenAuthenticator | Sources/RestKit/Authentication/ConfigBasedAuthenticatorFactory.swift:184-191 | succeeds exactly when `bearer_token` is present; without it the error names it; otherwise a bearer-token authenticator from that value |
| ConfigFactory.BuildCloudPakForDataAuthenticator | Sources/RestKit/Authentication/ConfigBasedAuthenticatorFactory.swift:193-208 | succeeds exactly when `username`, `password` and `url` are all present; they are checked in that order and the first missing is named; otherwise a CP4D authenticator from the three values |
| ConfigFactory.BuildAuthenticator | Sources/RestKit/Authentication/ConfigBasedAuthenticatorFactory.swift:142-160 | succeeds exactly when every key the type needs is present (noauth needs none), with an authenticator of that type built from those values; otherwise the error names the first missing key in checking order |
| ConfigFactory.AuthenticatorFromConfig | Sources/RestKit/Authentication/ConfigBasedAuthenticatorFactory.swift:47-61 | no configuration is `noConfigurationFound` before anything else; a missing `auth_type` means `iam`; `authenticationTypeNotRecognized` exactly when `auth_type` is present and not one of the five; `authenticationTypeNotDefined` never |
| ConfigFactory.DefaultIsIAM | Sources/RestKit/Authentication/ConfigBasedAuthenticatorFactory.swift:52-59 | without `auth_type`, the credentials build an IAM authenticator exactly when they hold `apikey`, and otherwise fail naming `apikey` |
| ConfigFactory.InferAuthType | Sources/RestKit/Authentication/ConfigBasedAuthenticatorFactory.swift:97-107 | `apikey` or `iam_apikey` gives iam, even with username and password; otherwise username and password together give basic; nil exactly when there is no api key under either name and not both of username and password; an inferred type always parses |
| ConfigFactory.VcapCredentials | Sources/RestKit/Authentication/ConfigBasedAuthenticatorFactory.swift:83-89 | service credentials come back with `auth_type` set to the inferred type and every other key unchanged; no inferable type gives nil |
| ConfigFactory.VcapAuthTypeAlwaysRecognized | Sources/RestKit/Authentication/ConfigBasedAuthenticatorFactory.swift:83-89 | service-binding credentials never fail on their auth type; those with `iam_apikey` but no `apikey` fail naming `apikey` |
| ConfigFactory.FirstPresent | Sources/RestKit/Authentication/ConfigBasedAuthenticatorFactory.swift:109-139 | the first present source: every earlier source is absent; nil only when all are absent |
| ConfigFactory.GetEnvironmentVariables | Sources/RestKit/Authentication/ConfigBasedAuthenticatorFactory.swift:109-139 | the result is the first present source in the fixed order: the sources are tried in the fixed order local file, user-named file (only if named, existing and readable), home file, service binding, and the first one found wins |
| ConfigFactory.GetAuthenticator | Sources/RestKit/Authentication/ConfigBasedAuthenticatorFactory.swift:47-61 | the authenticator is chosen from the first source, in precedence order, that yields credentials; `noConfigurationFound` exactly when none of the four does |
| RestRequest.NewRequest | Sources/RestKit/RestRequest.swift:65-83 | nil query items become the empty list; method, URL, headers and body are kept as given |
| RestRequest.NilQueryItemsKeepURLQuery | Sources/RestKit/RestRequest.swift:81 | a request made with nil query items keeps the URL's own query, only with `+` rewritten |
| RestRequest.EscapePlus | Sources/RestKit/RestRequest.swift:91 | the rewritten query holds no `+` |
| RestRequest.EscapePlusLength | Sources/RestKit/RestRequest.swift:91 | each `+` grows by two characters and every other character stays one |
| RestRequest.EscapePlusRoundTrip | Sources/RestKit/RestRequest.swift:91 | every original `+` becomes `%2B` and nothing else changes: turning `%2B` back into `+` restores the query, unless it already held `%2B` |
| RestRequest.EscapePlusKeepsPlusFree | Sources/RestKit/RestRequest.swift:91 | a query without `+` is unchanged |
| RestRequest.PreparedComponents | Sources/RestKit/RestRequest.swift:89-91 | query items replace the URL's query only when there are any; the query is present afterwards exactly when either existed; it holds no `+` |
| RestRequest.SetValue | Sources/RestKit/RestRequest.swift:98-99 | setting a header replaces the field whatever the case of its name, and leaves the other fields alone |
| RestRequest.ApplyOneHeader | Sources/RestKit/RestRequest.swift:99 | applying one more caller header keeps the header relation |
| RestRequest.ApplyHeaders | Sources/RestKit/RestRequest.swift:98-99 | after the default User-Agent and every caller header are set, the header relation holds for all the caller's headers |
| RestRequest.BuildURLRequest | Sources/RestKit/RestRequest.swift:85-101 | nil exactly when the URL does not parse or the final URL cannot be built; otherwise that URL, the method, the body, and the default User-Agent followed by every caller header |
| RestRequest.CallerHeadersOverride | Sources/RestKit/RestRequest.swift:98-99 | a caller header, a `User-Agent` included, is sent with its value, overriding the default; the default User-Agent is sent only when no caller header names that field |
| RestRequest.ClassifyTask | Sources/RestKit/RestRequest.swift:132-162 | a transport error is passed on unchanged and wins over everything; then no HTTP response is `noResponse` with response nil; then no error exactly for 2xx; other statuses give the decoder's error if there is a body, else `failure(status, phrase)` |
| RestRequest.Response | Sources/RestKit/RestRequest.swift:113-167 | a failed authentication (an error or no request) gives `(nil, nil, error)` and sends nothing; a URL that cannot be built gives `badURL` and sends nothing; otherwise exactly the URL request built from the authenticated request is sent and its answer classified |
| RestRequest.ResponseBadURLIff | Sources/RestKit/RestRequest.swift:117-129 | with a builder that behaves as `BuildURLRequest`, an authenticated call reports `badURL` and sends nothing exactly when the URL does not parse or cannot be built; otherwise the request sent carries the method, body and headers |
| RestRequest.ResponseErrorFree | Sources/RestKit/RestRequest.swift:117-161 | the completion carries no error exactly when a sent request got a 2xx HTTP answer, or when the authenticator answered with neither request nor error |
| RestRequest.ResponseData | Sources/RestKit/RestRequest.swift:174-202 | an error gives `failure(error)`; no body gives `failure(noData)` with data nil; success exactly when there is no error and a body, with that body |
| RestRequest.ResponseObject | Sources/RestKit/RestRequest.swift:209-245 | the same error and `noData` guards, then the decoder's result, its error included |
| RestRequest.ResponseString | Sources/RestKit/RestRequest.swift:252-288 | the same guards; a non-UTF-8 body gives a serialization failure with data nil; success exactly for a UTF-8 body, with its text |
| RestRequest.ResponseVoid | Sources/RestKit/RestRequest.swift:295-315 | succeeds exactly when there is no error, with or without a body; data and response passed through |
| RestRequest.ResponseDataSucceedsIff | Sources/RestKit/RestRequest.swift:113-202 | end to end, `responseData` succeeds exactly when authentication and URL building succeeded and the transport answered without error with a 2xx HTTP response and a body |
| RestRequest.SilentAuthenticator | Sources/RestKit/RestRequest.swift:117-123 | an authenticator answering with neither request nor error sends nothing; `responseData` then reports `noData` and `responseVoid` reports success |
| RestRequest.BodilessSuccess | Sources/RestKit/RestRequest.swift:148-161 | a 2xx answer without a body (such as 204) succeeds for `responseVoid` and is `noData` for `responseData` |
| RestRequest.ClassifyDownload | Sources/RestKit/RestRequest.swift:343-370 | transport error first, then `noResponse`, then `invalidFile` without a temporary file; after that the move is the only failure, `fileManagerError` |
| RestRequest.DownloadIgnoresStatusCode | Sources/RestKit/RestRequest.swift:343-370 | two answers differing only in status code give the same error: the status is never inspected |
| RestRequest.Download | Sources/RestKit/RestRequest.swift:323-375 | the same authentication and `badURL` guards as `response`, nothing sent on either; otherwise the built request is sent and its download answer classified |

## Left out

- Token lifecycle, token sources and the concrete authenticators (IAM, Cloud Pak for Data, basic, bearer, none). Their sources are not part of this model, so authentication is an input: its `(request?, error?)` answer.
- Networking and asynchrony: `URLSession` tasks, `resume()`, and the completion handlers' asynchrony. The transport is a function from the sent request to its answer.
- File and environment access. Reading a credentials file is modelled as "its lines, or nil". The existence and readability checks, `IBM_CREDENTIALS_FILE`, the home directory, and the `VCAP_SERVICES` variable with its JSON parsing (`ConfigBasedAuthenticatorFactory.swift:69-81, 117-118, 127`) are each modelled as a value of `ConfigSources`.
- Library routines, taken as function inputs with no properties assumed:
  - `URLComponents(string:)`, its query-item encoding, and `components.url`;
  - `HTTPURLResponse.localizedString(forStatusCode:)`;
  - UTF-8 decoding, `JSON.decoder.decode`, and `FileManager.moveItem`.
- Building the User-Agent string from the OS name and version (`RestRequest.swift:27-51`). The User-Agent is an input.
- Splitting the file text into lines (`components(separatedBy: .newlines)`). The parser starts from the lines.
- Helpers.ExtractEnvironmentVariables: `lowercased()` is modelled as ASCII case folding. Unicode case mapping, which can change a string's length, is not modelled.
- Helpers.ExtractEnvironmentVariables: prefix matching (`starts(with:)`), the removal offset (`prefix.count + 1`) and `split(separator: "=", maxSplits: 1)` work on Unicode scalars here, not on grapheme clusters as Swift's `Character` does.
  - A line whose character after the prefix is a combining mark is kept here but dropped by Swift. Example: prefix `e`, line `e` + U+0301 + `_x=1`.
  - The split happens at the first `=` scalar, not at the first `=` Character. An `=` followed by a combining mark is a different Character in Swift and is not a separator. Example: prefix `S`, line `S_A=` + U+0301 + `x`. Swift finds one piece and traps; the model accepts the line and yields key `a`, value U+0301 + `x`.
- Helpers.ExtractEnvironmentVariables: a kept line that would trap in the source is excluded by a precondition, for lines in which no `=` is followed by a combining mark (see the line on grapheme clusters). Such a line splits into fewer than two pieces, or its first piece is no longer than the prefix. It has fewer than two pieces when it holds nothing but `=`s, has no `=` after its leading ones, or has nothing after that `=`.
- RestRequest.BuildURLRequest: a header field is identified by its lower-cased name. Which spelling of the name Foundation keeps is not modelled.
- RestRequest.Response: the builder is an input rather than a call to `BuildURLRequest`, because the builder's header order is not determined. `IsURLRequestBuilder` states what the input must satisfy, namely `BuildURLRequest`'s postcondition, and `ResponseBadURLIff` uses it.
- The `metadata` field that the tests give `RestError.http`. `RestError.swift` declares only status code and message.
- Multipart form data, `BaseService`, and the package manifest. They have no logic of this core.
