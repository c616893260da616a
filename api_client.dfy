/** The browser-side fetch wrapper: mock switch, bearer token and URL selection. */
module ApiClient {
  import opened Wrappers
  import opened Text
  import ServerProxy

  /** The environment variables read by the client, each possibly unset. */
  datatype Env = Env(
    apiBaseUrl: Option<string>,  // NEXT_PUBLIC_API_BASE_URL
    useMocks: Option<string>,    // NEXT_PUBLIC_USE_MOCKS
    apiToken: Option<string>,    // NEXT_PUBLIC_API_TOKEN
    nodeEnv: Option<string>)     // NODE_ENV

  /**
   * A `RequestInit`: its headers (keyed by lower-case name, as the `Headers`
   * class keeps them) and every other field by name.
   */
  datatype RequestInit = RequestInit(headers: Option<map<string, string>>, fields: map<string, string>)

  /** The arguments handed to `fetch`. */
  datatype FetchCall = FetchCall(url: string, init: Option<RequestInit>)

  /** `(flag ?? "true") !== "false"`: mocks are on unless the flag is exactly "false". */
  function MocksEnabled(flag: Option<string>): (enabled: bool)
    ensures enabled <==> flag != Some("false")
  {
    flag.GetOr("true") != "false"
  }

  /** `runtimeAuthToken ?? envAuthToken`: the runtime token wins whenever it is set, even when empty. */
  function SelectToken(runtime: Option<string>, env: Option<string>): (token: Option<string>)
    ensures runtime.Some? ==> token == runtime
    ensures runtime.None? ==> token == env
  {
    if runtime.Some? then runtime else env
  }

  /**
   * `applyAuthHeaders`: without a (truthy) token the init is passed through as is;
   * with one, the headers gain `Authorization: Bearer <token>` and nothing else changes.
   */
  function ApplyAuthHeaders(token: Option<string>, init: Option<RequestInit>): (r: Option<RequestInit>)
    ensures token == None || token == Some("") ==> r == init
    ensures token.Some? && token.value != "" ==>
      && r.Some? && r.value.headers.Some?
      && r.value.headers.value == HeadersOf(init)["authorization" := "Bearer " + token.value]
      && r.value.fields == (if init.Some? then init.value.fields else map[])
  {
    if token == None || token == Some("") then init
    else
      var headers := HeadersOf(init)["authorization" := "Bearer " + token.value];
      Some(RequestInit(Some(headers), if init.Some? then init.value.fields else map[]))
  }

  /** `new Headers(init?.headers ?? undefined)`: the headers of `init`, or none. */
  function HeadersOf(init: Option<RequestInit>): map<string, string> {
    if init.Some? && init.value.headers.Some? then init.value.headers.value else map[]
  }

  /** `/^https?:\/\//i.test(input)`. */
  predicate IsAbsoluteUrl(input: string) {
    StartsWith(ToLower(input), "http://") || StartsWith(ToLower(input), "https://")
  }

  /** An `/api/` route served by the Next.js mock handlers instead of the backend. */
  predicate ShouldUseMocks(env: Env, input: string) {
    StartsWith(input, "/api/") && MocksEnabled(env.useMocks) && env.nodeEnv != Some("test")
  }

  /**
   * The URL `apiFetch` requests: the input itself when there is no base URL, when it
   * is absolute or when it is a mocked route; otherwise the input joined to the base
   * exactly as the server proxy resolves it.
   */
  function FetchUrl(env: Env, input: string): (url: string)
    ensures env.apiBaseUrl == None || env.apiBaseUrl == Some("") || IsAbsoluteUrl(input) || ShouldUseMocks(env, input)
      ==> url == input
    ensures !(env.apiBaseUrl == None || env.apiBaseUrl == Some("") || IsAbsoluteUrl(input) || ShouldUseMocks(env, input))
      ==> Some(url) == ServerProxy.ResolveTarget(env.apiBaseUrl, input)
  {
    if env.apiBaseUrl == None || env.apiBaseUrl == Some("") || IsAbsoluteUrl(input) || ShouldUseMocks(env, input) then input
    else ServerProxy.StripTrailingSlash(env.apiBaseUrl.value) + ServerProxy.EnsureLeadingSlash(input)
  }

  /** A joined URL always keeps the backend base (less its trailing slash) as its prefix. */
  lemma JoinedUrlKeepsBase(env: Env, input: string)
    requires env.apiBaseUrl.Some? && env.apiBaseUrl.value != ""
    requires !IsAbsoluteUrl(input) && !ShouldUseMocks(env, input)
    ensures StartsWith(FetchUrl(env, input), ServerProxy.StripTrailingSlash(env.apiBaseUrl.value))
  {
    ServerProxy.TargetShape(env.apiBaseUrl.value, input);
  }

  /** The module-level state of `apiClient.ts`: the environment and the runtime token. */
  class Client {
    const env: Env
    var runtimeAuthToken: Option<string>

    constructor (env: Env)
      ensures this.env == env && runtimeAuthToken == None
    {
      this.env := env;
      runtimeAuthToken := None;
    }

    /** `setClientAuthToken`: replaces the runtime token, `null` included. */
    method SetClientAuthToken(token: Option<string>)
      modifies this`runtimeAuthToken
      ensures runtimeAuthToken == token
      ensures Token() == SelectToken(token, env.apiToken)
    {
      runtimeAuthToken := token;
    }

    /** The token `applyAuthHeaders` uses. */
    function Token(): Option<string>
      reads this
    {
      SelectToken(runtimeAuthToken, env.apiToken)
    }

    /** `apiFetch` without the network: the URL and init handed to `fetch`. */
    function ApiFetch(input: string, init: Option<RequestInit>): (call: FetchCall)
      reads this
      ensures call.url == FetchUrl(env, input)
      ensures Token() == None || Token() == Some("") ==> call.init == init
      ensures Token().Some? && Token().value != "" ==>
        && call.init.Some? && call.init.value.headers.Some?
        && "authorization" in call.init.value.headers.value
        && call.init.value.headers.value["authorization"] == "Bearer " + Token().value
    {
      FetchCall(FetchUrl(env, input), ApplyAuthHeaders(Token(), init))
    }
  }
}
