/** The browsing-session controller of public/app.js, with the DOM
    abstracted to the state the handlers read and write: the settings and
    the theme put on the document, the current proxied frame and the frames
    in the frame container, which of home, frame container and settings
    panel is shown, the navigation bar's text, the live poll intervals, and
    the proxy transport.

    Whatever the handlers only learn from the environment is a parameter:
    whether service-worker registration succeeded, whether a frame's window
    or document could be reached across the origin boundary, what a frame's
    location reads as (`None` when access is denied), whether the settings
    panel's markup arrived, and the colour-scheme preference. `Controller`
    holds the state and updates it in place; `Session` is that state as a
    value, and the transition functions on it (`NavigateState`, `HomeState`,
    ...) are what the methods are proved against. */
module App {
  import opened Wrappers
  import JsString
  import Resolver

  // ---------------------------------------------------------------------
  // Settings and theme

  datatype Settings = Settings(searchEngine: string, adblock: bool, theme: string)

  /** The keys a parsed settings record has. */
  datatype SavedSettings = SavedSettings(searchEngine: Option<string>, adblock: Option<bool>, theme: Option<string>)

  const DefaultSettings := Settings("https://duckduckgo.com/?q=%s", false, "system")

  /** `loadSettings`; `saved` is `None` when nothing is stored or the stored
      text does not parse to an object. */
  function LoadSettings(saved: Option<SavedSettings>): (s: Settings)
    ensures saved.None? ==> s == DefaultSettings
    ensures saved.Some? ==>
      && (saved.value.searchEngine.Some? ==> s.searchEngine == saved.value.searchEngine.value)
      && (saved.value.searchEngine.None? ==> s.searchEngine == DefaultSettings.searchEngine)
      && (saved.value.adblock.Some? ==> s.adblock == saved.value.adblock.value)
      && (saved.value.adblock.None? ==> s.adblock == DefaultSettings.adblock)
      && (saved.value.theme.Some? ==> s.theme == saved.value.theme.value)
      && (saved.value.theme.None? ==> s.theme == DefaultSettings.theme)
  {
    match saved
    case None => DefaultSettings
    case Some(r) =>
      Settings(r.searchEngine.GetOr(DefaultSettings.searchEngine),
               r.adblock.GetOr(DefaultSettings.adblock),
               r.theme.GetOr(DefaultSettings.theme))
  }

  /** The theme `applyTheme` puts on the document: `"system"` follows the
      colour-scheme preference, any other theme is used as it is. */
  function ResolveTheme(theme: string, prefersDark: bool): (r: string)
    ensures r != "system"
    ensures theme != "system" ==> r == theme
    ensures theme == "system" ==> (r == "dark" <==> prefersDark)
    ensures theme == "system" ==> r == "dark" || r == "light"
  {
    if theme == "system" then (if prefersDark then "dark" else "light") else theme
  }

  // ---------------------------------------------------------------------
  // Session state

  const LibcurlTransport := "/libcurl/index.mjs"

  /** An embedded proxy frame and the URL it was sent to with `go`. */
  datatype Frame = Frame(id: nat, target: string)

  datatype Transport = Transport(path: string, websocket: string)

  /** The anchor a click lands in, if any: its `target` and `href`. */
  datatype Anchor = Anchor(target: string, href: string)

  /** The page the controller runs in, and the URL parser. */
  datatype Page = Page(protocol: string, host: string, parse: Resolver.Parser)

  datatype Session = Session(
    settings: Settings,
    documentTheme: string,
    settingsOpen: bool,
    settingsShown: bool,
    homeShown: bool,
    containerShown: bool,
    navbar: string,
    currentFrame: Option<Frame>,
    frames: seq<Frame>,
    nextFrameId: nat,
    intervals: set<nat>,
    nextIntervalId: nat,
    transport: Option<Transport>,
    openPatched: set<nat>,
    clicksIntercepted: set<nat>)

  /** The frame container holds exactly the current frame, if any; ids
      handed out so far are below the counters; the settings panel is only
      shown while it counts as open; the document's theme is resolved. */
  predicate Inv(v: Session) {
    && (v.currentFrame.None? ==> v.frames == [])
    && (v.currentFrame.Some? ==> v.frames == [v.currentFrame.value] && v.currentFrame.value.id < v.nextFrameId)
    && (forall i :: i in v.intervals ==> i < v.nextIntervalId)
    && (forall i :: i in v.openPatched ==> i < v.nextFrameId)
    && v.clicksIntercepted <= v.openPatched
    && (v.settingsShown ==> v.settingsOpen)
    && v.documentTheme != "system"
  }

  /** The page as loaded: settings read from storage and their theme
      applied, the home view shown, no frame, and whatever transport the
      shared connection has. */
  function Loaded(saved: Option<SavedSettings>, transport: Option<Transport>, prefersDark: bool): (v: Session)
    ensures Inv(v)
    ensures v.settings == LoadSettings(saved) && v.transport == transport
    ensures v.homeShown && !v.containerShown && !v.settingsOpen && v.currentFrame.None? && v.intervals == {}
  {
    var settings := LoadSettings(saved);
    Session(settings, ResolveTheme(settings.theme, prefersDark), false, false, true, false, "",
            None, [], 0, {}, 0, transport, {}, {})
  }

  /** The websocket endpoint of the tunnelling transport: the scheme, the
      page's host and `/wisp/`, in that order. */
  function WispUrl(protocol: string, host: string): (w: string)
    ensures var scheme := if protocol == "https:" then "wss://" else "ws://";
      && |w| == |scheme| + |host| + 6
      && w[..|scheme|] == scheme
      && w[|scheme|..|scheme| + |host|] == host
      && w[|w| - 6..] == "/wisp/"
  {
    (if protocol == "https:" then "wss" else "ws") + "://" + host + "/wisp/"
  }

  /** The endpoint is secure exactly on an `https:` page, and its path is
      `/wisp/`. */
  lemma WispUrlShape(protocol: string, host: string)
    ensures JsString.StartsWith(WispUrl(protocol, host), "wss://") <==> protocol == "https:"
    ensures var w := WispUrl(protocol, host); |w| >= 6 && w[|w| - 6..] == "/wisp/"
  {
    var w := WispUrl(protocol, host);
    if protocol != "https:" {
      assert w[..6][2] == ':';
    } else {
      assert w[..6] == "wss://";
    }
  }

  function TransportPath(t: Option<Transport>): Option<string> {
    match t
    case None => None
    case Some(tr) => Some(tr.path)
  }

  /** The transport after a navigation: set to libcurl over `websocket`
      unless libcurl is already in place. */
  function ConfiguredTransport(t: Option<Transport>, websocket: string): (r: Option<Transport>)
    ensures r.Some? && r.value.path == LibcurlTransport
    ensures TransportPath(t) == Some(LibcurlTransport) ==> r == t
    ensures TransportPath(t) != Some(LibcurlTransport) ==> r == Some(Transport(LibcurlTransport, websocket))
  {
    if TransportPath(t) != Some(LibcurlTransport) then Some(Transport(LibcurlTransport, websocket)) else t
  }

  /** `frame.remove()`: the frame container without that frame. */
  function RemoveFrame(frames: seq<Frame>, f: Frame): (r: seq<Frame>)
    ensures f !in r
    ensures forall g :: g in r <==> g in frames && g != f
    ensures frames == [f] ==> r == []
    ensures f !in frames ==> r == frames
  {
    if frames == [] then []
    else if frames[0] == f then RemoveFrame(frames[1..], f)
    else [frames[0]] + RemoveFrame(frames[1..], f)
  }

  /** `monitorIframeNavigation`: with a current frame, a new poll interval
      starts; the older ones keep running. */
  function MonitorState(v: Session): (w: Session)
    ensures v.currentFrame.None? ==> w == v
    ensures v.intervals <= w.intervals
    ensures w.(intervals := v.intervals, nextIntervalId := v.nextIntervalId) == v
    ensures Inv(v) ==> Inv(w) && |w.intervals| == |v.intervals| + (if v.currentFrame.Some? then 1 else 0)
  {
    if v.currentFrame.None? then v
    else v.(intervals := v.intervals + {v.nextIntervalId}, nextIntervalId := v.nextIntervalId + 1)
  }

  /** `interceptNewWindowOpens`: when the current frame's window can be
      reached, its `open` is replaced and a load listener is added. */
  function InterceptState(v: Session, windowAccessible: bool): (w: Session)
    ensures w.(openPatched := v.openPatched) == v
    ensures v.openPatched <= w.openPatched
    ensures forall id :: id in w.openPatched && id !in v.openPatched ==>
      windowAccessible && v.currentFrame.Some? && id == v.currentFrame.value.id
    ensures v.currentFrame.Some? && windowAccessible ==> v.currentFrame.value.id in w.openPatched
    ensures Inv(v) ==> Inv(w)
  {
    if v.currentFrame.Some? && windowAccessible
    then v.(openPatched := v.openPatched + {v.currentFrame.value.id})
    else v
  }

  /** `navigateToUrl`, first step: libcurl over the page's wisp endpoint
      unless it is already configured. */
  function ConfigureState(v: Session, page: Page): (w: Session)
    ensures w.transport.Some? && w.transport.value.path == LibcurlTransport
    ensures TransportPath(v.transport) == Some(LibcurlTransport) ==> w == v
    ensures TransportPath(v.transport) != Some(LibcurlTransport) ==>
      w.transport == Some(Transport(LibcurlTransport, WispUrl(page.protocol, page.host)))
    ensures w.(transport := v.transport) == v
  {
    v.(transport := ConfiguredTransport(v.transport, WispUrl(page.protocol, page.host)))
  }

  /** Second step: the old frame, if any, leaves the container, and a new
      frame sent to `url` is appended and becomes the current one. */
  function SwapFrameState(v: Session, url: string): (w: Session)
    ensures w.currentFrame == Some(Frame(v.nextFrameId, url)) && w.nextFrameId == v.nextFrameId + 1
    ensures |w.frames| > 0 && w.frames[|w.frames| - 1] == w.currentFrame.value
    ensures Inv(v) && v.currentFrame.Some? ==> v.currentFrame.value !in w.frames
    ensures w.(currentFrame := v.currentFrame, frames := v.frames, nextFrameId := v.nextFrameId) == v
    ensures Inv(v) ==> w.frames == [w.currentFrame.value]
  {
    var kept := if v.currentFrame.Some? then RemoveFrame(v.frames, v.currentFrame.value) else v.frames;
    var frame := Frame(v.nextFrameId, url);
    v.(currentFrame := Some(frame), frames := kept + [frame], nextFrameId := v.nextFrameId + 1)
  }

  /** Third step: the frame container replaces home, settings close, and
      the navigation bar shows `url`. */
  function DisplayState(v: Session, url: string): (w: Session)
    ensures !w.homeShown && w.containerShown && !w.settingsShown && !w.settingsOpen && w.navbar == url
    ensures w.(homeShown := v.homeShown, containerShown := v.containerShown, settingsShown := v.settingsShown,
               settingsOpen := v.settingsOpen, navbar := v.navbar) == v
  {
    v.(homeShown := false, containerShown := true, settingsShown := false, settingsOpen := false, navbar := url)
  }

  /** The rest of `navigateToUrl` once registration succeeded, taken as one
      step: the awaited transport calls finish before any other event. */
  function ShowFrameState(v: Session, page: Page, input: string): (w: Session)
    ensures var url := Resolver.Search(input, v.settings.searchEngine, page.parse);
      && w.currentFrame == Some(Frame(v.nextFrameId, url)) && w.navbar == url
      && !w.homeShown && w.containerShown && !w.settingsShown && !w.settingsOpen
    ensures w.transport.Some? && w.transport.value.path == LibcurlTransport
    ensures w.intervals == v.intervals && w.settings == v.settings && w.documentTheme == v.documentTheme
    ensures w.openPatched == v.openPatched && w.clicksIntercepted == v.clicksIntercepted
    ensures Inv(v) ==> Inv(w)
  {
    var url := Resolver.Search(input, v.settings.searchEngine, page.parse);
    DisplayState(SwapFrameState(ConfigureState(v, page), url), url)
  }

  /** `navigateToUrl(input)`. */
  function NavigateState(v: Session, page: Page, input: string, registered: bool, windowAccessible: bool): (w: Session)
    ensures !registered ==> w == v
    ensures registered ==>
      var url := Resolver.Search(input, v.settings.searchEngine, page.parse);
      && w.currentFrame == Some(Frame(v.nextFrameId, url))
      && !w.homeShown && w.containerShown && !w.settingsShown && !w.settingsOpen
      && w.navbar == url
      && w.transport == ConfiguredTransport(v.transport, WispUrl(page.protocol, page.host))
      && w.intervals == v.intervals + {v.nextIntervalId}
      && w.settings == v.settings && w.documentTheme == v.documentTheme
      && w.openPatched == v.openPatched + (if windowAccessible then {v.nextFrameId} else {})
      && w.clicksIntercepted == v.clicksIntercepted
      && w.nextFrameId == v.nextFrameId + 1 && w.nextIntervalId == v.nextIntervalId + 1
    ensures Inv(v) ==> Inv(w)
    ensures registered && Inv(v) ==> w.frames == [w.currentFrame.value]
  {
    if !registered then v
    else InterceptState(MonitorState(ShowFrameState(v, page, input)), windowAccessible)
  }

  /** The Home button. */
  function HomeState(v: Session): (w: Session)
    ensures w.currentFrame.None? && !w.containerShown && !w.settingsShown && !w.settingsOpen
    ensures w.homeShown && w.navbar == ""
    ensures w.intervals == v.intervals && w.transport == v.transport && w.settings == v.settings
    ensures w.(currentFrame := v.currentFrame, frames := v.frames, containerShown := v.containerShown,
               settingsShown := v.settingsShown, settingsOpen := v.settingsOpen,
               homeShown := v.homeShown, navbar := v.navbar) == v
    ensures Inv(v) ==> Inv(w) && w.frames == []
  {
    var kept := if v.currentFrame.Some? then RemoveFrame(v.frames, v.currentFrame.value) else v.frames;
    v.(currentFrame := None, frames := kept,
       containerShown := false, settingsShown := false, settingsOpen := false,
       homeShown := true, navbar := "")
  }

  /** A poll tick copies a location into the navigation bar only when it is
      non-empty, differs from the bar and is not an `about:` page. */
  predicate ShouldShow(location: string, navbar: string)
    ensures ShouldShow(location, navbar) ==> location != "" && location != navbar
    ensures |location| >= 6 && location[..6] == "about:" ==> !ShouldShow(location, navbar)
  {
    location != "" && location != navbar && !JsString.StartsWith(location, "about:")
  }

  /** One tick of poll interval `interval`; `location` is the current
      frame's location, `None` when reading it is denied. */
  function TickState(v: Session, interval: nat, location: Option<string>): (w: Session)
    ensures v.currentFrame.None? ==> w == v.(intervals := v.intervals - {interval})
    ensures v.currentFrame.Some? ==> w.intervals == v.intervals
    ensures v.currentFrame.Some? && location.None? ==> w == v
    ensures v.currentFrame.Some? && location.Some? ==>
      w == v.(navbar := if ShouldShow(location.value, v.navbar) then location.value else v.navbar)
  {
    if v.currentFrame.None? then v.(intervals := v.intervals - {interval})
    else
      match location
      case None => v
      case Some(href) => if ShouldShow(href, v.navbar) then v.(navbar := href) else v
  }

  /** The current frame's load event, heard once `interceptNewWindowOpens`
      has added the load listener: the new document replaces the old one,
      so clicks are intercepted afterwards exactly when the new document
      could be reached and got the click listener. */
  function FrameLoadState(v: Session, documentAccessible: bool): (w: Session)
    ensures w.(clicksIntercepted := v.clicksIntercepted) == v
    ensures !(v.currentFrame.Some? && v.currentFrame.value.id in v.openPatched) ==> w == v
    ensures v.currentFrame.Some? && v.currentFrame.value.id in v.openPatched ==>
      (v.currentFrame.value.id in w.clicksIntercepted <==> documentAccessible)
    ensures forall id :: (v.currentFrame.None? || id != v.currentFrame.value.id) ==>
      (id in w.clicksIntercepted <==> id in v.clicksIntercepted)
    ensures Inv(v) ==> Inv(w)
  {
    if v.currentFrame.Some? && v.currentFrame.value.id in v.openPatched then
      var id := v.currentFrame.value.id;
      v.(clicksIntercepted := if documentAccessible then v.clicksIntercepted + {id} else v.clicksIntercepted - {id})
    else v
  }

  /** The replaced `window.open(url)`: a non-empty URL is opened in the
      session instead, and `null` is returned. */
  function WindowOpenState(v: Session, page: Page, url: string, registered: bool, windowAccessible: bool): (w: Session)
    ensures url == "" || !registered ==> w == v
    ensures url != "" && registered ==> w.navbar == Resolver.Search(url, v.settings.searchEngine, page.parse)
    ensures Inv(v) ==> Inv(w)
  {
    if url != "" then NavigateState(v, page, url, registered, windowAccessible) else v
  }

  /** Only `_blank` and `_new` count: an ordinary link (no target, `_self`,
      `_parent`, `_top`) is left to the frame. */
  predicate OpensNewContext(a: Anchor)
    ensures a.target in {"", "_self", "_parent", "_top"} ==> !OpensNewContext(a)
  {
    a.target == "_blank" || a.target == "_new"
  }

  /** The capturing click listener. */
  function LinkClickState(v: Session, page: Page, anchor: Option<Anchor>, registered: bool, windowAccessible: bool): (w: Session)
    ensures !(anchor.Some? && OpensNewContext(anchor.value) && anchor.value.href != "") ==> w == v
    ensures anchor.Some? && OpensNewContext(anchor.value) && anchor.value.href != "" && registered ==>
      w.navbar == Resolver.Search(anchor.value.href, v.settings.searchEngine, page.parse)
    ensures Inv(v) ==> Inv(w)
  {
    if anchor.Some? && OpensNewContext(anchor.value) && anchor.value.href != ""
    then NavigateState(v, page, anchor.value.href, registered, windowAccessible)
    else v
  }

  /** Either form's submit handler, given the field's text. */
  function SubmitState(v: Session, page: Page, value: string, registered: bool, windowAccessible: bool): (w: Session)
    ensures JsString.Trim(value) == "" || !registered ==> w == v
    ensures JsString.Trim(value) != "" && registered ==>
      w.navbar == Resolver.Search(JsString.Trim(value), v.settings.searchEngine, page.parse)
    ensures Inv(v) ==> Inv(w)
  {
    var val := JsString.Trim(value);
    if val != "" then NavigateState(v, page, val, registered, windowAccessible) else v
  }

  /** The user typing `text` into the navigation bar. */
  function EditNavbarState(v: Session, text: string): (w: Session)
    ensures w.navbar == text && w.(navbar := v.navbar) == v
    ensures Inv(v) ==> Inv(w)
  {
    v.(navbar := text)
  }

  /** The settings button: it flips `settingsOpen`. Opening shows the panel
      once its markup has arrived (`panelLoaded`); closing hides it. */
  function ToggleSettingsState(v: Session, panelLoaded: bool): (w: Session)
    ensures w.settingsOpen == !v.settingsOpen
    ensures !w.settingsOpen ==> !w.settingsShown
    ensures w.settingsOpen ==> (w.settingsShown <==> panelLoaded || v.settingsShown)
    ensures w.(settingsOpen := v.settingsOpen, settingsShown := v.settingsShown) == v
    ensures Inv(v) ==> Inv(w)
  {
    if v.settingsOpen then v.(settingsOpen := false, settingsShown := false)
    else if panelLoaded then v.(settingsOpen := true, settingsShown := true)
    else v.(settingsOpen := true)
  }

  /** The settings panel's save button: the chosen settings replace the
      current ones, their theme is applied, and the panel closes. */
  function SaveSettingsState(v: Session, chosen: Settings, prefersDark: bool): (w: Session)
    ensures w.settings == chosen && w.documentTheme == ResolveTheme(chosen.theme, prefersDark)
    ensures !w.settingsOpen && !w.settingsShown
    ensures w.(settings := v.settings, documentTheme := v.documentTheme,
               settingsOpen := v.settingsOpen, settingsShown := v.settingsShown) == v
    ensures Inv(v) ==> Inv(w)
  {
    v.(settings := chosen, documentTheme := ResolveTheme(chosen.theme, prefersDark),
       settingsShown := false, settingsOpen := false)
  }

  /** The colour-scheme change listener: only the `system` theme follows it. */
  function SchemeChangeState(v: Session, prefersDark: bool): (w: Session)
    ensures v.settings.theme != "system" ==> w == v
    ensures v.settings.theme == "system" ==> w == v.(documentTheme := if prefersDark then "dark" else "light")
    ensures Inv(v) ==> Inv(w)
  {
    if v.settings.theme == "system" then v.(documentTheme := ResolveTheme("system", prefersDark)) else v
  }

  // ---------------------------------------------------------------------
  // Sessions as event traces

  /** What can happen to a session: a navigation, a tick of a poll
      interval, the Home button, the current frame's load event, a call of
      its replaced `window.open`, a click in its document, a submit of
      either form, typing in the navigation bar, the settings button, the
      settings panel's save button, and a change of the colour-scheme
      preference. The booleans and options are what the environment
      answers (registration, cross-origin access, the frame's location,
      the panel's markup, the preference). */
  datatype Event =
    | Navigate(input: string, registered: bool, windowAccessible: bool)
    | Tick(interval: nat, location: Option<string>)
    | Home
    | Load(documentAccessible: bool)
    | Open(url: string, registered: bool, windowAccessible: bool)
    | Click(anchor: Option<Anchor>, registered: bool, windowAccessible: bool)
    | SubmitHome(value: string, registered: bool, windowAccessible: bool)
    | SubmitNavbar(registered: bool, windowAccessible: bool)
    | EditNavbar(text: string)
    | ToggleSettings(panelLoaded: bool)
    | SaveSettings(chosen: Settings, prefersDark: bool)
    | SchemeChange(prefersDark: bool)

  /** One event. A cleared interval no longer fires, `open` and clicks only
      reach the controller once they have been intercepted in the current
      frame, and the save button can only be pressed on a shown panel.
      Every event keeps the invariant. */
  function Step(v: Session, page: Page, e: Event): (w: Session)
    ensures Inv(v) ==> Inv(w)
  {
    match e
    case Navigate(input, reg, acc) => NavigateState(v, page, input, reg, acc)
    case Tick(i, loc) => if i in v.intervals then TickState(v, i, loc) else v
    case Home => HomeState(v)
    case Load(acc) => FrameLoadState(v, acc)
    case Open(url, reg, acc) =>
      if v.currentFrame.Some? && v.currentFrame.value.id in v.openPatched
      then WindowOpenState(v, page, url, reg, acc) else v
    case Click(a, reg, acc) =>
      if v.currentFrame.Some? && v.currentFrame.value.id in v.clicksIntercepted
      then LinkClickState(v, page, a, reg, acc) else v
    case SubmitHome(value, reg, acc) => SubmitState(v, page, value, reg, acc)
    case SubmitNavbar(reg, acc) => SubmitState(v, page, v.navbar, reg, acc)
    case EditNavbar(text) => EditNavbarState(v, text)
    case ToggleSettings(loaded) => ToggleSettingsState(v, loaded)
    case SaveSettings(chosen, dark) => if v.settingsShown then SaveSettingsState(v, chosen, dark) else v
    case SchemeChange(dark) => SchemeChangeState(v, dark)
  }

  function Run(v: Session, page: Page, es: seq<Event>): Session
    decreases |es|
  {
    if es == [] then v else Run(Step(v, page, es[0]), page, es[1..])
  }

  /** Any sequence of events leaves at most one frame, the current one, and
      a resolved theme on the document. */
  lemma {:induction false} RunPreservesInv(v: Session, page: Page, es: seq<Event>)
    requires Inv(v)
    ensures Inv(Run(v, page, es))
    ensures |Run(v, page, es).frames| <= 1
    ensures Run(v, page, es).currentFrame.Some? ==> Run(v, page, es).frames == [Run(v, page, es).currentFrame.value]
    ensures Run(v, page, es).documentTheme != "system"
    decreases |es|
  {
    if es != [] {
      RunPreservesInv(Step(v, page, es[0]), page, es[1..]);
    }
  }

  /** From the page as loaded, every reachable session keeps the invariant. */
  lemma ReachableSessionsValid(saved: Option<SavedSettings>, transport: Option<Transport>, prefersDark: bool,
                               page: Page, es: seq<Event>)
    ensures var w := Run(Loaded(saved, transport, prefersDark), page, es);
      Inv(w) && |w.frames| <= 1 && (w.settingsShown ==> w.settingsOpen)
  {
    RunPreservesInv(Loaded(saved, transport, prefersDark), page, es);
  }

  /** Navigation never clears a poll interval: two navigations leave two
      more live intervals, not one, and a single frame for the second
      target. */
  lemma TwoNavigationsTwoPolls(v: Session, page: Page, a: string, b: string, accA: bool, accB: bool)
    requires Inv(v)
    ensures var w := NavigateState(NavigateState(v, page, a, true, accA), page, b, true, accB);
      && w.intervals == v.intervals + {v.nextIntervalId, v.nextIntervalId + 1}
      && |w.intervals| == |v.intervals| + 2
      && w.frames == [Frame(v.nextFrameId + 1, Resolver.Search(b, v.settings.searchEngine, page.parse))]
  {
    var u := NavigateState(v, page, a, true, accA);
    assert v.nextIntervalId !in v.intervals;
    assert u.nextIntervalId == v.nextIntervalId + 1 by {
      assert u.nextIntervalId == MonitorState(ShowFrameState(v, page, a)).nextIntervalId;
    }
    var w := NavigateState(u, page, b, true, accB);
    assert v.nextIntervalId + 1 !in v.intervals + {v.nextIntervalId};
    assert u.nextFrameId == v.nextFrameId + 1;
    assert w.intervals == (v.intervals + {v.nextIntervalId}) + {v.nextIntervalId + 1};
  }

  /** A second navigation keeps the transport the first one configured. */
  lemma SecondNavigationKeepsTransport(v: Session, page: Page, a: string, b: string, accA: bool, accB: bool)
    ensures var u := NavigateState(v, page, a, true, accA);
      NavigateState(u, page, b, true, accB).transport == u.transport
    ensures NavigateState(v, page, a, true, accA).transport.value.path == LibcurlTransport
  {
  }

  predicate AllTicks(es: seq<Event>) {
    forall k :: 0 <= k < |es| ==> es[k].Tick?
  }

  /** The intervals the ticks in `es` belong to. */
  function Ticked(es: seq<Event>): set<nat>
    requires AllTicks(es)
    decreases |es|
  {
    if es == [] then {} else {es[0].interval} + Ticked(es[1..])
  }

  /** Without a current frame, each live interval cancels itself at its next
      tick and nothing else changes. */
  lemma {:induction false} TicksWithoutFrameDrain(v: Session, page: Page, es: seq<Event>)
    requires v.currentFrame.None? && AllTicks(es)
    ensures Run(v, page, es) == v.(intervals := v.intervals - Ticked(es))
    decreases |es|
  {
    if es != [] {
      var u := Step(v, page, es[0]);
      assert u == v.(intervals := v.intervals - {es[0].interval});
      assert AllTicks(es[1..]) by {
        forall k | 0 <= k < |es[1..]| ensures es[1..][k].Tick? {
          assert es[1..][k] == es[k + 1];
        }
      }
      TicksWithoutFrameDrain(u, page, es[1..]);
      assert v.intervals - {es[0].interval} - Ticked(es[1..]) == v.intervals - Ticked(es);
    }
  }

  /** After Home, once every live interval has ticked, none is left, and the
      ticks change nothing else. */
  lemma DrainAfterHome(v: Session, page: Page, es: seq<Event>)
    requires AllTicks(es) && v.intervals <= Ticked(es)
    ensures Run(HomeState(v), page, es) == HomeState(v).(intervals := {})
  {
    TicksWithoutFrameDrain(HomeState(v), page, es);
  }

  /** While a frame is shown, ticks never touch the interval set, and the
      navigation bar only ever takes a readable, non-empty, non-`about:`
      location. */
  lemma TickWithFrame(v: Session, interval: nat, location: Option<string>)
    requires v.currentFrame.Some?
    ensures var w := TickState(v, interval, location);
      && w.intervals == v.intervals
      && (w.navbar == v.navbar || (location.Some? && w.navbar == location.value
                                   && location.value != "" && !JsString.StartsWith(location.value, "about:")))
      && (location.None? ==> w.navbar == v.navbar)
      && w.(navbar := v.navbar) == v
  {
  }

  /** What the user typed into the navigation bar is overwritten by the
      next tick that reads a different, non-empty, non-`about:` location,
      and kept by a tick that cannot read the location. */
  lemma TickOverwritesTypedText(v: Session, typed: string, interval: nat, location: string)
    requires v.currentFrame.Some?
    ensures location != "" && location != typed && !JsString.StartsWith(location, "about:") ==>
      TickState(EditNavbarState(v, typed), interval, Some(location)).navbar == location
    ensures TickState(EditNavbarState(v, typed), interval, None).navbar == typed
  {
  }

  /** Click interception follows the frame's latest document: after a
      load of a reachable document a `_blank` link navigates the session,
      and after a later load of an unreachable one the same click no longer
      reaches the session. */
  lemma ClicksFollowLatestDocument(v: Session, page: Page, u: string, h: string, acc: bool)
    requires Inv(v) && h != ""
    ensures var n := NavigateState(v, page, u, true, true);
      var click := Click(Some(Anchor("_blank", h)), true, acc);
      && Step(FrameLoadState(n, true), page, click).navbar
           == Resolver.Search(h, v.settings.searchEngine, page.parse)
      && Step(FrameLoadState(FrameLoadState(n, true), false), page, click)
           == FrameLoadState(FrameLoadState(n, true), false)
  {
    var n := NavigateState(v, page, u, true, true);
    assert n.currentFrame.value.id in n.openPatched;
  }

  /** Submitting the navigation bar navigates to what the user typed in it,
      without its surrounding white space. */
  lemma SubmitTypedText(v: Session, page: Page, typed: string, acc: bool)
    requires JsString.Trim(typed) != ""
    ensures var w := Run(v, page, [EditNavbar(typed), SubmitNavbar(true, acc)]);
      && w.currentFrame == Some(Frame(v.nextFrameId, Resolver.Search(JsString.Trim(typed), v.settings.searchEngine, page.parse)))
      && w.navbar == Resolver.Search(JsString.Trim(typed), v.settings.searchEngine, page.parse)
  {
    var es := [EditNavbar(typed), SubmitNavbar(true, acc)];
    var u := Step(v, page, es[0]);
    assert u == v.(navbar := typed);
    assert es[1..] == [SubmitNavbar(true, acc)];
    assert [SubmitNavbar(true, acc)][1..] == [];
    assert Run(u, page, es[1..]) == Step(u, page, SubmitNavbar(true, acc));
  }

  /** Saved settings take effect: the next navigation searches with the
      chosen engine. */
  lemma SavedEngineIsUsed(v: Session, page: Page, chosen: Settings, dark: bool, input: string, acc: bool)
    ensures NavigateState(SaveSettingsState(v, chosen, dark), page, input, true, acc).navbar
         == Resolver.Search(input, chosen.searchEngine, page.parse)
  {
  }

  /** Pressing the settings button twice on a closed panel leaves the
      session as it was, whether or not the markup arrived. */
  lemma ToggleTwice(v: Session, loaded: bool, loadedAgain: bool)
    requires Inv(v) && !v.settingsOpen
    ensures ToggleSettingsState(ToggleSettingsState(v, loaded), loadedAgain) == v
  {
  }

  /** A redirected `open(url)` with a non-empty URL leaves the single frame
      for that URL; an empty URL changes nothing. */
  lemma PopupRedirect(v: Session, page: Page, url: string, acc: bool)
    requires Inv(v)
    ensures url == "" ==> WindowOpenState(v, page, url, true, acc) == v
    ensures url != "" ==>
      var w := WindowOpenState(v, page, url, true, acc);
      w.frames == [Frame(v.nextFrameId, Resolver.Search(url, v.settings.searchEngine, page.parse))]
  {
  }

  /** A click on a link that opens a new context navigates to its href,
      without a second frame; any other click changes nothing. */
  lemma LinkClickRedirect(v: Session, page: Page, anchor: Option<Anchor>, acc: bool)
    requires Inv(v)
    ensures !(anchor.Some? && OpensNewContext(anchor.value)) ==> LinkClickState(v, page, anchor, true, acc) == v
    ensures anchor.Some? && OpensNewContext(anchor.value) && anchor.value.href != "" ==>
      var w := LinkClickState(v, page, anchor, true, acc);
      w.frames == [Frame(v.nextFrameId, Resolver.Search(anchor.value.href, v.settings.searchEngine, page.parse))]
  {
  }

  /** A submit changes the session exactly when the field holds something
      besides white space (and registration succeeds); what is navigated to
      is the text without its surrounding white space. */
  lemma {:induction false} SubmitGuard(v: Session, page: Page, value: string, reg: bool, acc: bool)
    ensures (forall k :: 0 <= k < |value| ==> JsString.IsJsSpace(value[k])) ==> SubmitState(v, page, value, reg, acc) == v
    ensures (exists k :: 0 <= k < |value| && !JsString.IsJsSpace(value[k])) ==>
      SubmitState(v, page, value, reg, acc) == NavigateState(v, page, JsString.Trim(value), reg, acc)
    ensures (exists k :: 0 <= k < |value| && !JsString.IsJsSpace(value[k])) && reg ==>
      var w := SubmitState(v, page, value, reg, acc);
      && w.currentFrame == Some(Frame(v.nextFrameId, Resolver.Search(JsString.Trim(value), v.settings.searchEngine, page.parse)))
      && !w.homeShown && w.containerShown
  {
    JsString.TrimEmptyIff(value);
  }

  /** Navigating after Home gives one fresh frame, while the intervals
      started before Home are still live: Home does not clear them. */
  lemma HomeThenNavigate(v: Session, page: Page, input: string, acc: bool)
    requires Inv(v)
    ensures var w := NavigateState(HomeState(v), page, input, true, acc);
      && w.frames == [Frame(v.nextFrameId, Resolver.Search(input, v.settings.searchEngine, page.parse))]
      && w.intervals == v.intervals + {v.nextIntervalId}
  {
  }

  // ---------------------------------------------------------------------
  // The controller

  class Controller {
    const page: Page
    var settings: Settings
    var documentTheme: string
    var settingsOpen: bool
    var settingsShown: bool
    var homeShown: bool
    var containerShown: bool
    var navbar: string
    var currentFrame: Option<Frame>
    var frames: seq<Frame>
    var nextFrameId: nat
    var intervals: set<nat>
    var nextIntervalId: nat
    var transport: Option<Transport>
    var openPatched: set<nat>
    var clicksIntercepted: set<nat>

    ghost function View(): Session
      reads this
    {
      Session(settings, documentTheme, settingsOpen, settingsShown, homeShown, containerShown, navbar,
               currentFrame, frames, nextFrameId, intervals, nextIntervalId, transport,
               openPatched, clicksIntercepted)
    }

    ghost predicate Valid()
      reads this
    {
      Inv(View())
    }

    /** The page as loaded: settings read from storage and their theme
        applied, the home view shown, no frame, and whatever transport the
        shared connection has. */
    constructor (page: Page, saved: Option<SavedSettings>, transport: Option<Transport>, prefersDark: bool)
      ensures Valid() && this.page == page
      ensures View() == Loaded(saved, transport, prefersDark)
    {
      this.page := page;
      settings := LoadSettings(saved);
      documentTheme := ResolveTheme(LoadSettings(saved).theme, prefersDark);
      settingsOpen, settingsShown := false, false;
      homeShown, containerShown := true, false;
      navbar := "";
      currentFrame, frames, nextFrameId := None, [], 0;
      intervals, nextIntervalId := {}, 0;
      this.transport := transport;
      openPatched, clicksIntercepted := {}, {};
    }

    method MonitorIframeNavigation()
      requires Valid()
      modifies this
      ensures Valid()
      ensures View() == MonitorState(old(View()))
    {
      if currentFrame.None? {
        return;
      }
      intervals := intervals + {nextIntervalId};
      nextIntervalId := nextIntervalId + 1;
    }

    method InterceptNewWindowOpens(windowAccessible: bool)
      requires Valid()
      modifies this
      ensures Valid()
      ensures View() == InterceptState(old(View()), windowAccessible)
    {
      if currentFrame.None? {
        return;
      }
      if windowAccessible {
        openPatched := openPatched + {currentFrame.value.id};
      }
    }

    /** Sets the transport to libcurl over `wispUrl` unless it already is. */
    method ConfigureTransport(wispUrl: string)
      requires Valid()
      modifies this
      ensures Valid()
      ensures View() == old(View()).(transport := ConfiguredTransport(old(transport), wispUrl))
    {
      if TransportPath(transport) != Some(LibcurlTransport) {
        transport := Some(Transport(LibcurlTransport, wispUrl));
      }
    }

    /** Removes the old frame, if any, then creates, appends and keeps a new
        frame sent to `url`. */
    method SwapFrame(url: string)
      requires Valid()
      modifies this
      ensures Valid()
      ensures View() == SwapFrameState(old(View()), url)
    {
      if currentFrame.Some? {
        frames := RemoveFrame(frames, currentFrame.value);
        currentFrame := None;
      }
      var frame := Frame(nextFrameId, url);
      nextFrameId := nextFrameId + 1;
      currentFrame := Some(frame);
      frames := frames + [frame];
    }

    /** Shows the frame container instead of home, closes settings and puts
        `url` in the navigation bar. */
    method DisplayFrame(url: string)
      requires Valid()
      modifies this
      ensures Valid()
      ensures View() == DisplayState(old(View()), url)
    {
      homeShown := false;
      containerShown := true;
      settingsShown := false;
      settingsOpen := false;
      navbar := url;
    }

    /** `navigateToUrl(input)`; `registered` is whether `registerSW()`
        resolved. */
    method NavigateToUrl(input: string, registered: bool, windowAccessible: bool)
      requires Valid()
      modifies this
      ensures Valid()
      ensures View() == NavigateState(old(View()), page, input, registered, windowAccessible)
    {
      if !registered {
        return;
      }
      var url := Resolver.Search(input, settings.searchEngine, page.parse);
      ConfigureTransport(WispUrl(page.protocol, page.host));
      SwapFrame(url);
      DisplayFrame(url);
      ghost var shown := View();
      assert shown == ShowFrameState(old(View()), page, input);
      MonitorIframeNavigation();
      InterceptNewWindowOpens(windowAccessible);
      assert View() == InterceptState(MonitorState(shown), windowAccessible);
    }

    /** A tick of the poll interval `interval`, which is live. */
    method PollTick(interval: nat, location: Option<string>)
      requires Valid() && interval in intervals
      modifies this
      ensures Valid()
      ensures View() == TickState(old(View()), interval, location)
    {
      if currentFrame.None? {
        intervals := intervals - {interval};
        return;
      }
      if location.Some? {
        var href := location.value;
        if href != "" && href != navbar && !JsString.StartsWith(href, "about:") {
          navbar := href;
        }
      }
    }

    method GoHome()
      requires Valid()
      modifies this
      ensures Valid()
      ensures View() == HomeState(old(View()))
    {
      if currentFrame.Some? {
        frames := RemoveFrame(frames, currentFrame.value);
        currentFrame := None;
      }
      containerShown := false;
      settingsShown := false;
      settingsOpen := false;
      homeShown := true;
      navbar := "";
    }

    method FrameLoaded(documentAccessible: bool)
      requires Valid()
      modifies this
      ensures Valid()
      ensures View() == FrameLoadState(old(View()), documentAccessible)
    {
      if currentFrame.Some? && currentFrame.value.id in openPatched {
        if documentAccessible {
          clicksIntercepted := clicksIntercepted + {currentFrame.value.id};
        } else {
          clicksIntercepted := clicksIntercepted - {currentFrame.value.id};
        }
      }
    }

    /** The replaced `window.open` of the current frame. `delegated` is
        whether the original `open` was called instead; otherwise `null`
        is returned. */
    method WindowOpen(url: string, registered: bool, windowAccessible: bool) returns (delegated: bool)
      requires Valid() && currentFrame.Some? && currentFrame.value.id in openPatched
      modifies this
      ensures Valid()
      ensures delegated <==> url == ""
      ensures View() == WindowOpenState(old(View()), page, url, registered, windowAccessible)
    {
      if url != "" {
        NavigateToUrl(url, registered, windowAccessible);
        return false;
      }
      return true;
    }

    /** A click in the current frame's document; `prevented` is whether the
        default action was cancelled. */
    method LinkClick(anchor: Option<Anchor>, registered: bool, windowAccessible: bool) returns (prevented: bool)
      requires Valid() && currentFrame.Some? && currentFrame.value.id in clicksIntercepted
      modifies this
      ensures Valid()
      ensures prevented <==> anchor.Some? && OpensNewContext(anchor.value)
      ensures View() == LinkClickState(old(View()), page, anchor, registered, windowAccessible)
    {
      prevented := false;
      if anchor.Some? && (anchor.value.target == "_blank" || anchor.value.target == "_new") {
        prevented := true;
        var href := anchor.value.href;
        if href != "" {
          NavigateToUrl(href, registered, windowAccessible);
        }
      }
    }

    /** The home form's submit handler, with the search field's text. */
    method SubmitHome(searchValue: string, registered: bool, windowAccessible: bool)
      requires Valid()
      modifies this
      ensures Valid()
      ensures View() == SubmitState(old(View()), page, searchValue, registered, windowAccessible)
    {
      var val := JsString.Trim(searchValue);
      if val != "" {
        NavigateToUrl(val, registered, windowAccessible);
      }
    }

    /** The navigation bar's submit handler. */
    method SubmitNavbar(registered: bool, windowAccessible: bool)
      requires Valid()
      modifies this
      ensures Valid()
      ensures View() == SubmitState(old(View()), page, old(navbar), registered, windowAccessible)
    {
      var val := JsString.Trim(navbar);
      if val != "" {
        NavigateToUrl(val, registered, windowAccessible);
      }
    }

    /** The user edits the navigation bar's text. */
    method EditNavbar(text: string)
      requires Valid()
      modifies this
      ensures Valid()
      ensures View() == EditNavbarState(old(View()), text)
    {
      navbar := text;
    }

    /** The settings button; `panelLoaded` is whether the panel's markup
        arrived. */
    method ToggleSettings(panelLoaded: bool)
      requires Valid()
      modifies this
      ensures Valid()
      ensures View() == ToggleSettingsState(old(View()), panelLoaded)
    {
      settingsOpen := !settingsOpen;
      if settingsOpen {
        if panelLoaded {
          settingsShown := true;
        }
      } else {
        settingsShown := false;
      }
    }

    /** The save button of the shown settings panel, with the values of its
        controls. */
    method SaveSettings(chosen: Settings, prefersDark: bool)
      requires Valid() && settingsShown
      modifies this
      ensures Valid()
      ensures View() == SaveSettingsState(old(View()), chosen, prefersDark)
    {
      settings := chosen;
      documentTheme := ResolveTheme(chosen.theme, prefersDark);
      settingsShown := false;
      settingsOpen := false;
    }

    /** The colour-scheme preference changed. */
    method ColourSchemeChanged(prefersDark: bool)
      requires Valid()
      modifies this
      ensures Valid()
      ensures View() == SchemeChangeState(old(View()), prefersDark)
    {
      if settings.theme == "system" {
        documentTheme := ResolveTheme("system", prefersDark);
      }
    }
  }
}
