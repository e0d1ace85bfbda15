/** The request configuration that `createAxiosInstance`
    (packages/common/src/axios/index.ts) builds from its defaults and the
    caller's `axiosConfig`, and the headers `createSSEConnection`
    (packages/common/src/axios/sse.ts) puts on its request. A configuration is
    its top-level settings other than `headers`, plus the headers object when
    there is one. */
module AxiosConfig {
  import opened Wrappers
  import opened JsValue

  datatype RequestConfig = RequestConfig(settings: map<string, Value>, headers: Option<map<string, Value>>)

  /** The properties spreading `headers` contributes: none when it is absent */
  function HeaderFields(c: RequestConfig): map<string, Value> {
    c.headers.GetOr(map[])
  }

  /** `defaultAxiosConfig`; `baseUrl` is the build-time `VITE_API` setting */
  function Defaults(baseUrl: string): RequestConfig {
    RequestConfig(
      map["baseURL" := Prim(Text(baseUrl)), "timeout" := Prim(Number(1000 * 60 * 60)), "adapter" := Prim(Text("fetch"))],
      Some(map["Content-Type" := Prim(Text("application/json"))]))
  }

  /** `{...defaults, ...user, headers: {...defaults.headers, ...user.headers}}`:
      every setting and every header of either side is present, and where both
      have one the caller's wins */
  function Merge(defaults: RequestConfig, user: RequestConfig): (merged: RequestConfig)
    ensures merged.headers.Some?
    ensures merged.settings.Keys == defaults.settings.Keys + user.settings.Keys
    ensures forall k :: k in user.settings ==> merged.settings[k] == user.settings[k]
    ensures forall k :: k in defaults.settings && k !in user.settings ==> merged.settings[k] == defaults.settings[k]
    ensures HeaderFields(merged).Keys == HeaderFields(defaults).Keys + HeaderFields(user).Keys
    ensures forall k :: k in HeaderFields(user) ==> HeaderFields(merged)[k] == HeaderFields(user)[k]
    ensures forall k :: k in HeaderFields(defaults) && k !in HeaderFields(user) ==> HeaderFields(merged)[k] == HeaderFields(defaults)[k]
  {
    RequestConfig(defaults.settings + user.settings, Some(HeaderFields(defaults) + HeaderFields(user)))
  }

  /** The configuration an instance is created with: an absent `axiosConfig`
      falls back to the defaults themselves */
  function InstanceConfig(baseUrl: string, axiosConfig: Option<RequestConfig>): RequestConfig {
    Merge(Defaults(baseUrl), axiosConfig.GetOr(Defaults(baseUrl)))
  }

  /** With no `axiosConfig` the instance gets exactly the defaults */
  lemma NoConfigGivesDefaults(baseUrl: string)
    ensures InstanceConfig(baseUrl, None) == Defaults(baseUrl)
  {
    var d := Defaults(baseUrl);
    assert d.settings + d.settings == d.settings;
    assert HeaderFields(d) + HeaderFields(d) == HeaderFields(d);
  }

  /** Merging is idempotent: merging the defaults into an already merged
      configuration again changes nothing */
  lemma MergeIdempotent(defaults: RequestConfig, user: RequestConfig)
    ensures Merge(defaults, Merge(defaults, user)) == Merge(defaults, user)
  {
    var m := Merge(defaults, user);
    assert defaults.settings + m.settings == m.settings;
    assert HeaderFields(defaults) + HeaderFields(m) == HeaderFields(m);
  }

  /** A caller configuration with no settings and no headers changes nothing */
  lemma EmptyUserConfig(baseUrl: string)
    ensures InstanceConfig(baseUrl, Some(RequestConfig(map[], None))) == Defaults(baseUrl)
  {
    var d := Defaults(baseUrl);
    assert d.settings + map[] == d.settings;
    assert HeaderFields(d) + map[] == HeaderFields(d);
  }

  /** The request `createSSEConnection` issues: the caller's configuration
      with a streamed response over the fetch adapter and the connection's
      own abort signal, and the caller's headers with `Accept` set to the
      event-stream media type. `signal` stands for `abortController.signal`
      of the new connection, whatever object that is; a `signal` the caller
      passed is replaced by it. */
  function SseRequest(requestConfig: RequestConfig, signal: Value): (r: RequestConfig)
    ensures r.headers.Some? && "Accept" in r.headers.value
    ensures r.headers.value["Accept"] == Prim(Text("text/event-stream"))
    ensures forall k :: k in HeaderFields(requestConfig) && k != "Accept" ==>
              k in r.headers.value && r.headers.value[k] == HeaderFields(requestConfig)[k]
    ensures "responseType" in r.settings && "adapter" in r.settings && "signal" in r.settings
    ensures r.settings["responseType"] == Prim(Text("stream")) && r.settings["adapter"] == Prim(Text("fetch"))
    ensures r.settings["signal"] == signal
    ensures forall k :: k in requestConfig.settings && k !in StreamSettings ==>
              k in r.settings && r.settings[k] == requestConfig.settings[k]
    ensures r.settings.Keys == requestConfig.settings.Keys + StreamSettings
    ensures r.headers.value.Keys == HeaderFields(requestConfig).Keys + {"Accept"}
  {
    RequestConfig(
      requestConfig.settings["responseType" := Prim(Text("stream"))]["adapter" := Prim(Text("fetch"))]["signal" := signal],
      Some(HeaderFields(requestConfig)["Accept" := Prim(Text("text/event-stream"))]))
  }

  /** The settings the stream request sets over the caller's */
  const StreamSettings: set<string> := {"responseType", "adapter", "signal"}

  /** What the stream request puts over the caller's configuration */
  function SseOverrides(signal: Value): RequestConfig {
    RequestConfig(map["responseType" := Prim(Text("stream")), "adapter" := Prim(Text("fetch")), "signal" := signal],
                  Some(map["Accept" := Prim(Text("text/event-stream"))]))
  }

  /** The stream request is the caller's configuration merged with the
      stream settings in the same way `createAxiosInstance` merges a caller's
      configuration over its defaults, the stream settings winning */
  lemma SseRequestIsMerge(requestConfig: RequestConfig, signal: Value)
    ensures SseRequest(requestConfig, signal) == Merge(requestConfig, SseOverrides(signal))
  {
    var r := SseRequest(requestConfig, signal);
    var m := Merge(requestConfig, SseOverrides(signal));
    assert r.settings == m.settings;
    assert r.headers.value == m.headers.value;
  }

  /** Issuing the stream request again from its own configuration, with the
      same signal, asks for the same request */
  lemma SseRequestIdempotent(requestConfig: RequestConfig, signal: Value)
    ensures SseRequest(SseRequest(requestConfig, signal), signal) == SseRequest(requestConfig, signal)
  {
    var r := SseRequest(requestConfig, signal);
    assert SseRequest(r, signal).settings == r.settings;
    assert SseRequest(r, signal).headers.value == r.headers.value;
  }
}
