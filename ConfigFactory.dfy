/**
 * Building an authenticator from discovered configuration (ConfigBasedAuthenticatorFactory.swift):
 * pick the first configuration source that yields credentials, default and parse the auth type,
 * then check the keys that type needs, in a fixed order.
 */
module ConfigFactory {
  import opened Wrappers

  type Credentials = map<string, string>

  datatype AuthenticatorError =
    | NoConfigurationFound
    | AuthenticationTypeNotDefined
    | AuthenticationTypeNotRecognized
    | MissingEnvironmentVariable(name: string)

  /** `EnvironmentAuthenticatorType`, a closed enum with string raw values. */
  datatype AuthType = IAM | Basic | CP4D | NoAuth | BearerToken

  function RawValue(t: AuthType): string
  {
    match t
    case IAM => "iam"
    case Basic => "basic"
    case CP4D => "cp4d"
    case NoAuth => "noauth"
    case BearerToken => "bearerToken"
  }

  /** `EnvironmentAuthenticatorType(rawValue:)`: exact, case-sensitive match of one of the five raw values. */
  function ParseAuthType(s: string): (r: Option<AuthType>)
    ensures r.Some? <==> s in {"iam", "basic", "cp4d", "noauth", "bearerToken"}
    ensures r.Some? ==> RawValue(r.value) == s
  {
    if s == "iam" then Some(IAM)
    else if s == "basic" then Some(Basic)
    else if s == "cp4d" then Some(CP4D)
    else if s == "noauth" then Some(NoAuth)
    else if s == "bearerToken" then Some(BearerToken)
    else None
  }

  /** Every auth type reads back from its raw value. */
  lemma ParseRawValue(t: AuthType)
    ensures ParseAuthType(RawValue(t)) == Some(t)
  {
  }

  /** The keys of `EnvironmentAuthenticatorVariable`. */
  const AuthTypeKey := "auth_type"
  const UsernameKey := "username"
  const PasswordKey := "password"
  const ApiKeyKey := "apikey"
  const BearerTokenKey := "bearer_token"
  const UrlKey := "url"

  /** The five authenticators the factory can return, with the values they are built from. */
  datatype Authenticator =
    | BasicAuthenticator(username: string, password: string)
    | IAMAuthenticator(apiKey: string)
    | CloudPakForDataAuthenticator(username: string, password: string, url: string)
    | BearerTokenAuthenticator(bearerToken: string)
    | NoAuthAuthenticator

  function KindOf(a: Authenticator): AuthType
  {
    match a
    case BasicAuthenticator(_, _) => Basic
    case IAMAuthenticator(_) => IAM
    case CloudPakForDataAuthenticator(_, _, _) => CP4D
    case BearerTokenAuthenticator(_) => BearerToken
    case NoAuthAuthenticator => NoAuth
  }

  /** The authenticator's fields are the credentials' values under the keys its type needs. */
  predicate BuiltFrom(a: Authenticator, creds: Credentials)
  {
    match a
    case BasicAuthenticator(u, p) =>
      UsernameKey in creds && PasswordKey in creds && creds[UsernameKey] == u && creds[PasswordKey] == p
    case IAMAuthenticator(k) => ApiKeyKey in creds && creds[ApiKeyKey] == k
    case CloudPakForDataAuthenticator(u, p, url) =>
      UsernameKey in creds && PasswordKey in creds && UrlKey in creds &&
      creds[UsernameKey] == u && creds[PasswordKey] == p && creds[UrlKey] == url
    case BearerTokenAuthenticator(t) => BearerTokenKey in creds && creds[BearerTokenKey] == t
    case NoAuthAuthenticator => true
  }

  /** Reference definition: the keys each type needs, in the order they are checked. */
  function RequiredKeys(t: AuthType): seq<string>
  {
    match t
    case Basic => [UsernameKey, PasswordKey]
    case IAM => [ApiKeyKey]
    case CP4D => [UsernameKey, PasswordKey, UrlKey]
    case BearerToken => [BearerTokenKey]
    case NoAuth => []
  }

  /** The first of `keys` missing from `creds`, if any. */
  function FirstMissing(keys: seq<string>, creds: Credentials): (r: Option<string>)
    ensures r.None? <==> forall k :: k in keys ==> k in creds
    ensures r.Some? ==> exists i :: 0 <= i < |keys| && keys[i] == r.value && r.value !in creds &&
                          forall j :: 0 <= j < i ==> keys[j] in creds
  {
    if |keys| == 0 then None
    else if keys[0] !in creds then Some(keys[0])
    else
      var r := FirstMissing(keys[1..], creds);
      assert forall k :: k in keys ==> k == keys[0] || k in keys[1..];
      if r.Some? then
        var i :| 0 <= i < |keys[1..]| && keys[1..][i] == r.value && r.value !in creds &&
                  forall j :: 0 <= j < i ==> keys[1..][j] in creds;
        assert keys[i + 1] == r.value;
        r
      else r
  }

  function BuildBasicAuthenticator(creds: Credentials): (r: Result<Authenticator, AuthenticatorError>)
    ensures UsernameKey !in creds ==> r == Failure(MissingEnvironmentVariable(UsernameKey))
    ensures UsernameKey in creds && PasswordKey !in creds ==> r == Failure(MissingEnvironmentVariable(PasswordKey))
    ensures r.Success? <==> UsernameKey in creds && PasswordKey in creds
    ensures r.Success? ==> r.value.BasicAuthenticator? && BuiltFrom(r.value, creds)
  {
    if UsernameKey !in creds then Failure(MissingEnvironmentVariable(UsernameKey))
    else if PasswordKey !in creds then Failure(MissingEnvironmentVariable(PasswordKey))
    else Success(BasicAuthenticator(creds[UsernameKey], creds[PasswordKey]))
  }

  function BuildIAMAuthenticator(creds: Credentials): (r: Result<Authenticator, AuthenticatorError>)
    ensures ApiKeyKey !in creds ==> r == Failure(MissingEnvironmentVariable(ApiKeyKey))
    ensures r.Success? <==> ApiKeyKey in creds
    ensures r.Success? ==> r.value.IAMAuthenticator? && BuiltFrom(r.value, creds)
  {
    if ApiKeyKey !in creds then Failure(MissingEnvironmentVariable(ApiKeyKey))
    else Success(IAMAuthenticator(creds[ApiKeyKey]))
  }

  function BuildTokenAuthenticator(creds: Credentials): (r: Result<Authenticator, AuthenticatorError>)
    ensures BearerTokenKey !in creds ==> r == Failure(MissingEnvironmentVariable(BearerTokenKey))
    ensures r.Success? <==> BearerTokenKey in creds
    ensures r.Success? ==> r.value.BearerTokenAuthenticator? && BuiltFrom(r.value, creds)
  {
    if BearerTokenKey !in creds then Failure(MissingEnvironmentVariable(BearerTokenKey))
    else Success(BearerTokenAuthenticator(creds[BearerTokenKey]))
  }

  function BuildCloudPakForDataAuthenticator(creds: Credentials): (r: Result<Authenticator, AuthenticatorError>)
    ensures UsernameKey !in creds ==> r == Failure(MissingEnvironmentVariable(UsernameKey))
    ensures UsernameKey in creds && PasswordKey !in creds ==> r == Failure(MissingEnvironmentVariable(PasswordKey))
    ensures UsernameKey in creds && PasswordKey in creds && UrlKey !in creds ==> r == Failure(MissingEnvironmentVariable(UrlKey))
    ensures r.Success? <==> UsernameKey in creds && PasswordKey in creds && UrlKey in creds
    ensures r.Success? ==> r.value.CloudPakForDataAuthenticator? && BuiltFrom(r.value, creds)
  {
    if UsernameKey !in creds then Failure(MissingEnvironmentVariable(UsernameKey))
    else if PasswordKey !in creds then Failure(MissingEnvironmentVariable(PasswordKey))
    else if UrlKey !in creds then Failure(MissingEnvironmentVariable(UrlKey))
    else Success(CloudPakForDataAuthenticator(creds[UsernameKey], creds[PasswordKey], creds[UrlKey]))
  }

  /** `buildAuthenticator`: succeeds exactly when every key the type needs is present, building an
      authenticator of that type from those values; otherwise it names the first missing key. */
  function BuildAuthenticator(t: AuthType, creds: Credentials): (r: Result<Authenticator, AuthenticatorError>)
    ensures r.Success? <==> FirstMissing(RequiredKeys(t), creds).None?
    ensures r.Success? ==> KindOf(r.value) == t && BuiltFrom(r.value, creds)
    ensures r.Failure? ==> r.error == MissingEnvironmentVariable(FirstMissing(RequiredKeys(t), creds).value)
  {
    match t
    case Basic => BuildBasicAuthenticator(creds)
    case CP4D => BuildCloudPakForDataAuthenticator(creds)
    case IAM => BuildIAMAuthenticator(creds)
    case BearerToken => BuildTokenAuthenticator(creds)
    case NoAuth => Success(NoAuthAuthenticator)
  }

  /** Lines 48-60 of `getAuthenticator` once the configuration is found (or not): no configuration
      comes first; a missing `auth_type` means iam; an unknown one is rejected before any key is
      looked at. `authenticationTypeNotDefined` is never raised. */
  function AuthenticatorFromConfig(config: Option<Credentials>): (r: Result<Authenticator, AuthenticatorError>)
    ensures config.None? ==> r == Failure(NoConfigurationFound)
    ensures r != Failure(AuthenticationTypeNotDefined)
    ensures r == Failure(AuthenticationTypeNotRecognized) <==>
      config.Some? && AuthTypeKey in config.value && ParseAuthType(config.value[AuthTypeKey]).None?
    ensures config.Some? && AuthTypeKey !in config.value ==> r == BuildAuthenticator(IAM, config.value)
    ensures config.Some? && AuthTypeKey in config.value && ParseAuthType(config.value[AuthTypeKey]).Some? ==>
      r == BuildAuthenticator(ParseAuthType(config.value[AuthTypeKey]).value, config.value)
  {
    match config
    case None => Failure(NoConfigurationFound)
    case Some(creds) =>
      var authType := if AuthTypeKey in creds then creds[AuthTypeKey] else RawValue(IAM);
      match ParseAuthType(authType)
      case None => Failure(AuthenticationTypeNotRecognized)
      case Some(t) => BuildAuthenticator(t, creds)
  }

  /** `inferAuthType`, used for service-binding credentials: an api key (under either name) means
      iam, even when a username and password are also present; otherwise both of username and
      password mean basic; otherwise nothing. */
  function InferAuthType(creds: Credentials): (r: Option<string>)
    ensures r == Some(RawValue(IAM)) <==> ApiKeyKey in creds || "iam_apikey" in creds
    ensures r == Some(RawValue(Basic)) <==>
      ApiKeyKey !in creds && "iam_apikey" !in creds && UsernameKey in creds && PasswordKey in creds
    ensures r.None? <==> ApiKeyKey !in creds && "iam_apikey" !in creds && !(UsernameKey in creds && PasswordKey in creds)
    ensures r.Some? ==> ParseAuthType(r.value).Some?
  {
    if ApiKeyKey in creds || "iam_apikey" in creds then Some(RawValue(IAM))
    else if UsernameKey in creds && PasswordKey in creds then Some(RawValue(Basic))
    else None
  }

  /** The credentials part of `readVCAPServicesVariables`: the bound service's credentials come
      back with `auth_type` set to the inferred type (overriding any given one) and every other
      entry unchanged; without an inferable type there is no configuration. */
  function VcapCredentials(service: Option<Credentials>): (r: Option<Credentials>)
    ensures r.Some? <==> service.Some? && InferAuthType(service.value).Some?
    ensures r.Some? ==> AuthTypeKey in r.value && Some(r.value[AuthTypeKey]) == InferAuthType(service.value)
    ensures r.Some? ==> r.value.Keys == service.value.Keys + {AuthTypeKey}
    ensures r.Some? ==> forall k :: k in service.value && k != AuthTypeKey ==> r.value[k] == service.value[k]
  {
    match service
    case None => None
    case Some(creds) =>
      match InferAuthType(creds)
      case None => None
      case Some(authType) => Some(creds[AuthTypeKey := authType])
  }

  /** What the environment offers to `getEnvironmentVariables`, each source already read: the
      parsed local file, the user-named file (its name, whether it exists and is readable, and its
      parsed content), the parsed home-directory file, and the bound service's credentials. */
  datatype ConfigSources = ConfigSources(
    localFile: Option<Credentials>,
    userFileName: Option<string>,
    userFileExists: bool,
    userFileReadable: bool,
    userFile: Option<Credentials>,
    homeFile: Option<Credentials>,
    vcapService: Option<Credentials>)

  /** The sources in precedence order; the user-named file only counts when named, present and readable. */
  function SourceOrder(src: ConfigSources): seq<Option<Credentials>>
  {
    [ src.localFile,
      if src.userFileName.Some? && src.userFileExists && src.userFileReadable then src.userFile else None,
      src.homeFile,
      VcapCredentials(src.vcapService) ]
  }

  /** Reference definition: the first present value of a sequence. */
  function FirstPresent(s: seq<Option<Credentials>>): (r: Option<Credentials>)
    ensures r.None? <==> forall i :: 0 <= i < |s| ==> s[i].None?
    ensures r.Some? ==> exists i :: 0 <= i < |s| && s[i] == r && forall j :: 0 <= j < i ==> s[j].None?
  {
    if |s| == 0 then None
    else if s[0].Some? then s[0]
    else
      var r := FirstPresent(s[1..]);
      if r.Some? then
        var i :| 0 <= i < |s[1..]| && s[1..][i] == r && forall j :: 0 <= j < i ==> s[1..][j].None?;
        assert s[i + 1] == r;
        r
      else r
  }

  /** `getEnvironmentVariables`: the sources are tried in order and the first one found wins, so
      the configuration is the first source, in the fixed order, that yields one. */
  function GetEnvironmentVariables(src: ConfigSources): (r: Option<Credentials>)
    ensures r == FirstPresent(SourceOrder(src))
  {
    var s := SourceOrder(src);
    assert s[1..] == [s[1], s[2], s[3]];
    assert s[1..][1..] == [s[2], s[3]];
    assert s[1..][1..][1..] == [s[3]];
    assert FirstPresent([s[3]]) == s[3] by { assert [s[3]][1..] == []; }
    if src.localFile.Some? then src.localFile
    else if src.userFileName.Some? && src.userFileExists && src.userFileReadable && src.userFile.Some? then src.userFile
    else if src.homeFile.Some? then src.homeFile
    else VcapCredentials(src.vcapService)
  }

  /** `getAuthenticator(credentialPrefix:)`. */
  function GetAuthenticator(src: ConfigSources): (r: Result<Authenticator, AuthenticatorError>)
    ensures r == AuthenticatorFromConfig(FirstPresent(SourceOrder(src)))
    ensures r == Failure(NoConfigurationFound) <==> forall i :: 0 <= i < 4 ==> SourceOrder(src)[i].None?
  {
    AuthenticatorFromConfig(GetEnvironmentVariables(src))
  }

  /** Credentials without `auth_type` build an IAM authenticator exactly when they hold `apikey`. */
  lemma DefaultIsIAM(creds: Credentials)
    requires AuthTypeKey !in creds
    ensures AuthenticatorFromConfig(Some(creds)).Success? <==> ApiKeyKey in creds
    ensures AuthenticatorFromConfig(Some(creds)).Success? ==>
      AuthenticatorFromConfig(Some(creds)).value == IAMAuthenticator(creds[ApiKeyKey])
    ensures ApiKeyKey !in creds ==> AuthenticatorFromConfig(Some(creds)) == Failure(MissingEnvironmentVariable(ApiKeyKey))
  {
  }

  /** Service-binding credentials are never rejected for their auth type, and those holding only
      `iam_apikey` (no `apikey`) are inferred as iam and then fail for the missing `apikey`. */
  lemma VcapAuthTypeAlwaysRecognized(service: Credentials)
    ensures AuthenticatorFromConfig(VcapCredentials(Some(service))) != Failure(AuthenticationTypeNotRecognized)
    ensures "iam_apikey" in service && ApiKeyKey !in service ==>
      AuthenticatorFromConfig(VcapCredentials(Some(service))) == Failure(MissingEnvironmentVariable(ApiKeyKey))
  {
  }
}
