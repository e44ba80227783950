/**
 * StealthManager.setup_browser_context: the settings of each new browser
 * context. The proxy is attached only when it is enabled, fully configured
 * and the IP-echo probe through it succeeds; any other case falls back to a
 * direct connection and never aborts. The injected fingerprint script and the
 * default cookies are fixed assets outside this model.
 */
module Stealth {
  import opened Common
  import opened Config

  datatype ProxySettings = ProxySettings(server: string, username: string, password: string)

  datatype ContextSettings = ContextSettings(
    viewport: Viewport,
    userAgent: string,
    proxy: Option<ProxySettings>)

  const DefaultViewport: Viewport := Viewport(1920, 1080)

  /** Python truthiness of an optional string: present and non-empty. */
  predicate Truthy(s: Option<string>) {
    s.Some? && s.value != ""
  }

  /** The configuration asks for a proxy and names server, user and password. */
  predicate ProxyRequested(p: ProxyConfig) {
    p.enabled && Truthy(p.server) && Truthy(p.username) && Truthy(p.password)
  }

  /**
   * The context settings for one session. `probeOk` is the outcome of the
   * request to the IP-echo endpoint through the proxy: status 200 and a
   * readable JSON body.
   */
  function SetupContextSettings(settings: Settings, uaPick: nat, probeOk: bool): (cs: ContextSettings)
    ensures cs.proxy.Some? <==> ProxyRequested(settings.proxy) && probeOk
    ensures cs.proxy.Some? ==>
      cs.proxy.value == ProxySettings("http://" + settings.proxy.server.value,
                                      settings.proxy.username.value, settings.proxy.password.value)
    ensures settings.viewport.Some? ==> cs.viewport == settings.viewport.value
    ensures settings.viewport.None? ==> cs.viewport == DefaultViewport
    ensures cs.userAgent == UserAgent(settings, uaPick)
  {
    var p := settings.proxy;
    var proxy :=
      if ProxyRequested(p) && probeOk then
        Some(ProxySettings("http://" + p.server.value, p.username.value, p.password.value))
      else None;
    ContextSettings(
      if settings.viewport.Some? then settings.viewport.value else DefaultViewport,
      UserAgent(settings, uaPick),
      proxy)
  }

  /** A failed or skipped probe changes nothing but the proxy: the session is still set up. */
  lemma ProxyFailureFallsBackToDirect(settings: Settings, uaPick: nat)
    ensures SetupContextSettings(settings, uaPick, false).proxy.None?
    ensures SetupContextSettings(settings, uaPick, false).viewport == SetupContextSettings(settings, uaPick, true).viewport
    ensures SetupContextSettings(settings, uaPick, false).userAgent == SetupContextSettings(settings, uaPick, true).userAgent
  {
  }
}
