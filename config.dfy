/**
 * ConfigManager: the loaded configuration, the wait-time ranges, the
 * user-agent and browser choices, and the checkpoint (status) file with its
 * save/load operations and the resume rule that reads it.
 */
module Config {
  import opened Common

  /** A `{min, max}` entry of the configuration; either bound may be missing. */
  datatype WaitSetting = WaitSetting(min: Option<real>, max: Option<real>)

  datatype ProxyConfig = ProxyConfig(
    enabled: bool,
    server: Option<string>,
    username: Option<string>,
    password: Option<string>)

  datatype Viewport = Viewport(width: int, height: int)

  /** The parts of crawler_config.json the core reads; None is a missing key. */
  datatype Settings = Settings(
    batchSize: Option<int>,
    urlWait: WaitSetting,
    batchWait: WaitSetting,
    userAgent: Option<string>,
    viewport: Option<Viewport>,
    browsers: Option<seq<string>>,
    proxy: ProxyConfig)

  datatype WaitKind = UrlKind | BatchKind

  /** The interval random.uniform draws from; the defaults apply when either bound is missing. */
  function WaitRange(settings: Settings, kind: WaitKind): (range: (real, real))
    ensures var w := if kind == UrlKind then settings.urlWait else settings.batchWait;
      && (w.min.Some? && w.max.Some? ==> range == (w.min.value, w.max.value))
      && (w.min.None? || w.max.None? ==>
            range == if kind == UrlKind then (10.0, 40.0) else (600.0, 900.0))
  {
    var w := if kind == UrlKind then settings.urlWait else settings.batchWait;
    if w.min.None? || w.max.None? then
      (if kind == UrlKind then (10.0, 40.0) else (600.0, 900.0))
    else (w.min.value, w.max.value)
  }

  const UserAgents: seq<string> := [
    "Mozilla/5.0 (Macintosh; Intel Mac OS X 10_15_7) AppleWebKit/605.1.15 (KHTML, like Gecko) Version/17.0 Safari/605.1.15",
    "Mozilla/5.0 (Macintosh; Intel Mac OS X 10_15_7) AppleWebKit/605.1.15 (KHTML, like Gecko) Version/16.6 Safari/605.1.15",
    "Mozilla/5.0 (Macintosh; Intel Mac OS X 10_15_7) AppleWebKit/605.1.15 (KHTML, like Gecko) Version/15.6.1 Safari/605.1.15"
  ]

  /** get_user_agent: "auto" (the default) picks from the pool; anything else is used as given. */
  function UserAgent(settings: Settings, pick: nat): (ua: string)
    ensures settings.userAgent.None? || settings.userAgent.value == "auto" ==> ua in UserAgents
    ensures settings.userAgent.Some? && settings.userAgent.value != "auto" ==> ua == settings.userAgent.value
  {
    var configured := if settings.userAgent.Some? then settings.userAgent.value else "auto";
    if configured == "auto" then UserAgents[pick % |UserAgents|] else configured
  }

  function Browsers(settings: Settings): seq<string> {
    if settings.browsers.Some? then settings.browsers.value else ["webkit"]
  }

  /** get_browser_type: rotate through the pool by batch index; an empty pool divides by zero. */
  function BrowserType(settings: Settings, batchIdx: nat): (b: Option<string>)
    ensures b.Some? <==> Browsers(settings) != []
    ensures b.Some? ==> b.value in Browsers(settings)
  {
    var pool := Browsers(settings);
    if pool == [] then None else Some(pool[batchIdx % |pool|])
  }

  /** The rotation repeats with the pool's length. */
  lemma BrowserRotationPeriodic(settings: Settings, batchIdx: nat)
    ensures BrowserType(settings, batchIdx + |Browsers(settings)|) == BrowserType(settings, batchIdx)
  {
    var n := |Browsers(settings)|;
    if n > 0 {
      ModUnique(batchIdx + n, n, batchIdx / n + 1, batchIdx % n);
    }
  }

  /** Division with remainder is unique: x == q * n + r with 0 <= r < n fixes x % n. */
  lemma ModUnique(x: int, n: int, q: int, r: int)
    requires n > 0 && 0 <= r < n && x == q * n + r
    ensures x % n == r
  {
    var q', r' := x / n, x % n;
    assert (q - q') * n == r' - r;
    if q - q' >= 1 {
      assert false;
    } else if q - q' <= -1 {
      assert false;
    }
  }

  /** The browser every batch actually launches: the first of the pool (an empty pool raises). */
  function BatchBrowser(settings: Settings): (b: Option<string>)
    ensures b == BrowserType(settings, 0)
  {
    var pool := Browsers(settings);
    if pool == [] then None else Some(pool[0])
  }

  /** `getattr(p, browsers[0]).launch(...)` succeeds only for Playwright's three browser types. */
  predicate Launchable(settings: Settings) {
    var b := BatchBrowser(settings);
    b.Some? && b.value in {"chromium", "firefox", "webkit"}
  }

  /** `batch_size or config.get("batch_size", 15)`: 0 and None fall back to the configuration. */
  function EffectiveBatchSize(arg: Option<int>, settings: Settings): (b: int)
    ensures arg.Some? && arg.value != 0 ==> b == arg.value
    ensures (arg.None? || arg.value == 0) && settings.batchSize.Some? ==> b == settings.batchSize.value
    ensures (arg.None? || arg.value == 0) && settings.batchSize.None? ==> b == 15
  {
    if arg.Some? && arg.value != 0 then arg.value
    else if settings.batchSize.Some? then settings.batchSize.value else 15
  }

  /** The checkpoint document (its timestamp is not modelled). */
  datatype Status = Status(filePath: string, lastBatch: nat, lastIndex: nat, blockedUrlIdx: Option<nat>)

  /** The identity checkpoint written when a run completes. */
  const InitialStatus: Status := Status("", 0, 0, None)

  /**
   * The start index a run uses: a checkpoint for the same file moves it to the
   * blocked record if one was recorded, else forward to last_index when that is
   * beyond the requested start.
   */
  function ResolveStart(saved: Option<Status>, file: string, requested: nat, autoRestart: bool): (start: nat)
    ensures !autoRestart || saved.None? || saved.value.filePath != file ==> start == requested
    ensures autoRestart && saved.Some? && saved.value.filePath == file ==>
      start == (if saved.value.blockedUrlIdx.Some? then saved.value.blockedUrlIdx.value
                else if saved.value.lastIndex > requested then saved.value.lastIndex
                else requested)
  {
    if autoRestart && saved.Some? && saved.value.filePath == file then
      var st := saved.value;
      if st.blockedUrlIdx.Some? then st.blockedUrlIdx.value
      else if st.lastIndex > requested then st.lastIndex
      else requested
    else requested
  }

  /** Without a blocked record the resolved start never goes backwards. */
  lemma ResolveStartMonotone(saved: Option<Status>, file: string, requested: nat, autoRestart: bool)
    requires saved.None? || saved.value.blockedUrlIdx.None?
    ensures ResolveStart(saved, file, requested, autoRestart) >= requested
  {
  }

  /** ConfigManager with its one piece of mutable state: the status file at status_path. */
  class ConfigManager {
    const settings: Settings
    const selectors: map<string, seq<string>>
    /** The content of config/crawler_status.json; None when it is absent or unreadable. */
    var statusFile: Option<Status>
    /** Every checkpoint written so far, oldest first. */
    ghost var saves: seq<Status>

    constructor (settings: Settings, selectors: map<string, seq<string>>, statusFile: Option<Status>)
      ensures this.settings == settings && this.selectors == selectors
      ensures this.statusFile == statusFile && saves == []
    {
      this.settings := settings;
      this.selectors := selectors;
      this.statusFile := statusFile;
      saves := [];
    }

    /** save_status: the whole checkpoint is replaced; nothing is merged. */
    method SaveStatus(file: string, batchIdx: nat, overallIdx: nat, blockedUrlIdx: Option<nat>)
      modifies this`statusFile, this`saves
      ensures statusFile == Some(Status(file, batchIdx, overallIdx, blockedUrlIdx))
      ensures saves == old(saves) + [Status(file, batchIdx, overallIdx, blockedUrlIdx)]
    {
      statusFile := Some(Status(file, batchIdx, overallIdx, blockedUrlIdx));
      saves := saves + [Status(file, batchIdx, overallIdx, blockedUrlIdx)];
    }

    /** load_status: the last saved checkpoint, or None. */
    method LoadStatus() returns (st: Option<Status>)
      ensures st == statusFile
    {
      st := statusFile;
    }
  }
}
