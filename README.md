# Just Search, modelled in Dafny

Just Search is a web proxy front end. A page takes what the user types. It
turns that into an address, shows the address in a proxied frame, and keeps
a navigation bar in step with that frame. A service worker sends every
request of the frame through the proxy engine. An error hook keeps the
engine from failing on data it cannot parse. This project models the four
pieces of sequential logic around the engine and proves what they promise:

- **`Resolver`** (public/search.js). Input becomes an absolute URL, a dotted
  host name under `http://`, or a search query. The WHATWG URL parser is a
  parameter, `parse`. `encodeURIComponent` is modelled concretely in
  **`UriEncoding`**: UTF-8 bytes written as upper-case `%XX` triples, with
  a decoder and a proved round trip. String `includes`, `replace`, `trim`
  and `substring` are modelled in **`JsString`**.
- **`ServiceWorker`** (public/sw.js). It covers `isRetryableError` and the
  retry loop of `handleRequest`. `HandleRequest` is a `while` loop with the
  source's `continue`, `break` and early returns. It is proved equal to the
  reference definition `DeliverFrom`. The engine and the network are
  oracles indexed by the attempt number. Attempts and delays are counted.
- **`ScramjetConfig`** (public/scramjet.config.js). The engine's
  `errorHandler` sorts an error into one of three cases. It returns which
  log it writes and the warning excerpt, and it throws on `null` or
  `undefined`. Thrown errors are `JsErrors.JsError`
  values: a kind (which class it is an instance of), a name and a message.
  A missing message is `""`.
- **`App`** (public/app.js). It covers `loadSettings`, the theme `applyTheme`
  resolves, and the browsing session:
  - `navigateToUrl` and its callees `monitorIframeNavigation` and
    `interceptNewWindowOpens`;
  - a tick of the poll interval;
  - the replaced `window.open`, the click listener and the load listener;
  - the Home button, both submit handlers, and the user typing in the
    navigation bar;
  - the settings button, the settings panel's save button and the
    colour-scheme change listener.

  `Controller` is a class whose fields are the module-level state and the
  parts of the DOM the handlers write:
  - the settings and the theme on the document;
  - the current frame and the frames in the container;
  - which of home, container and settings panel is shown, and whether the
    settings count as open;
  - the navigation bar's text;
  - the live poll intervals;
  - the transport, and which frames got the `open` patch or the click
    listener.

  Each method is proved against a transition function on the value
  `Session`, for example `NavigateState` or `HomeState`. `Step` and `Run`
  replay any sequence of events, and lemmas about `Run` give the
  properties of whole sessions.

  The environment's answers are parameters: whether service-worker
  registration resolved, whether a frame's window or document can be
  reached across origins, the frame's location (`None` where reading it
  throws), whether the settings panel's markup arrived, and the
  colour-scheme preference.

`navigateToUrl` starts a new interval on every navigation without clearing
the old ones, so a session can run several poll tasks at once. An interval
cancels itself only when a tick finds no current frame. So intervals pile
up across navigations (`App.TwoNavigationsTwoPolls`), and they all drain on
their first ticks after Home (`App.DrainAfterHome`).

## Model

| member | source | states |
|---|---|---|
| Resolver.Search | public/search.js:9-24 | An input that parses is returned as its serialisation. Otherwise a prefixed parse whose hostname contains a dot is returned. Otherwise the result is the template with the text from its first `%s` replaced by a string that decodes back to the input and holds only unreserved characters and `%XX` triples, or the template unchanged when it has no `%s`. |
| Resolver.LooksLikeDomain | public/search.js:16-18 | The second rule applies exactly when `http://` plus the input parses to a hostname that contains a `.` character. |
| Resolver.SearchFallback | public/search.js:23 | When neither URL rule applies, the result is `replace` of the template's first `%s` by the encoded input, which holds no `$`. |
| Resolver.TemplateOnlyForSearches | public/search.js:10-18 | When either URL rule applies, the result is the same for every template. |
| Resolver.DomainGetsHttp | public/search.js:16-18 | `example.com`, which yields an unparseable input and a dotted prefixed parse, resolves to `http://example.com/`. |
| Resolver.UndottedHostIsSearched | public/search.js:16-23 | A prefixed parse whose host has no dot (`localhost`) falls through to the search rule. |
| Resolver.SearchInsertsEncodedInput | public/search.js:23 | In the fallback, the text before the first `%s` is kept, `encodeURIComponent(input)` takes its place, and the rest follows. |
| Resolver.EncodedInputIsLiteral | public/search.js:23 | The inserted text contains no `$` and no `%s`. So `replace`'s replacement patterns never apply, and the literal splice is exact. |
| Resolver.LaterPlaceholdersRemain | public/search.js:23 | Every later `%s` of the template is still in the result, shifted by the length difference. |
| Resolver.NoPlaceholderKeepsTemplate | public/search.js:23 | A template without `%s` is returned unchanged. |
| Resolver.EncodeWeatherToday | public/search.js:23 | `weather today` encodes to `weather%20today`. |
| Resolver.WeatherToday | public/search.js:9-24 | `weather today` with the DuckDuckGo template resolves to `https://duckduckgo.com/?q=weather%20today`. |
| Resolver.ResolveIdempotentOnUrls | public/search.js:10-18 | Resolving an address that a URL rule produced again yields the same address, provided it parses to itself. |
| UriEncoding.HexDigit | public/search.js:23 | Each digit value has an upper-case hex digit, which reads back as the same value. |
| UriEncoding.Utf8 | public/search.js:23 | A code point takes 1 to 4 bytes, and exactly 1 below U+0080. |
| UriEncoding.Utf8RoundTrip | public/search.js:23 | Decoding a code point's UTF-8 bytes gives the code point back, and the lead byte announces the length. |
| UriEncoding.EncodeUriComponent | public/search.js:23 | Each code point becomes one to four `%XX` triples or stays itself, so the encoding is at least as long as the input and at most twelve times as long. |
| UriEncoding.EncodeAppend | public/search.js:23 | Encoding distributes over concatenation. |
| UriEncoding.EncodeUnreserved | public/search.js:23 | Text of unreserved characters only is left as it is. |
| UriEncoding.DecodeEncode | public/search.js:23 | `decodeURIComponent(encodeURIComponent(s)) == s` for every string. |
| UriEncoding.EncodeInjective | public/search.js:23 | Different inputs encode differently. |
| UriEncoding.EncodeWellEncoded | public/search.js:23 | The encoding consists of unreserved characters and `%XX` triples with upper-case hex. |
| UriEncoding.WellEncodedHasNoDollarOrPlaceholder | public/search.js:23 | Such text contains no `$` and no `%` followed by `s`. |
| JsString.IndexOf | public/search.js:23 | The result is the first occurrence of the pattern, or `None` when there is none at all. |
| JsString.Contains | public/search.js:18 | `includes` holds exactly when the pattern occurs at some position. |
| JsString.StartsWith | public/app.js:151 | `startsWith` holds exactly when the pattern is not longer than the text and is its prefix. |
| JsString.ReplaceFirst | public/search.js:23 | For a replacement without `$`, so that no substitution pattern applies: without an occurrence the text is returned unchanged, and with one the length changes by the replacement's length less the pattern's. |
| JsString.ReplaceFirstAt | public/search.js:23 | Replacing the first occurrence at `i` splices the replacement in at `i`. |
| JsString.ReplaceFirstKeepsLater | public/search.js:23 | Occurrences after the replaced one survive, shifted. |
| JsString.ContainsChar | public/search.js:18 | `includes` of a one-character string holds exactly when the character occurs. |
| JsString.Take | public/scramjet.config.js:36 | `substring(0, n)` is the prefix of length `min(n, length)`, with the length counted in code points. |
| JsString.Utf16Length | public/scramjet.config.js:36 | A string is at least as many UTF-16 code units long as it has code points, and exactly as many when none lies above U+FFFF. |
| JsString.TakeInBasicPlane | public/scramjet.config.js:36 | On text without code points above U+FFFF, the prefix is `min(n, length)` UTF-16 code units long, as `substring` counts. |
| JsString.IsJsSpace | public/app.js:207 | Space, tab, line feed and carriage return are white space for `trim`, and no visible ASCII character is. |
| JsString.TrimStart | public/app.js:207 | The result is a suffix of the input that does not start with white space, and only white space precedes it. |
| JsString.TrimEnd | public/app.js:207 | The result is a prefix of the input that does not end with white space, and only white space follows it. |
| JsString.Trim | public/app.js:207 | The result is a slice of the input that neither starts nor ends with white space, and only white space lies outside it. |
| JsString.TrimEmptyIff | public/app.js:207-208 | The trimmed text is empty exactly when the input is all white space. |
| ServiceWorker.Decimal | public/sw.js:21 | A code is printed as a non-empty string of decimal digits that denotes the code and has no leading zero. |
| ServiceWorker.RetryableCodesPrinted | public/sw.js:8-14 | The retryable codes print as `35`, `55`, `56`, `7` and `28`. |
| ServiceWorker.MentionsCode | public/sw.js:20-22 | A message mentions a code only when it is non-empty and the list of codes is non-empty. |
| ServiceWorker.IsRetryableError | public/sw.js:18-23 | Only a `TypeError` with a non-empty message can be retryable. |
| ServiceWorker.RetryableIff | public/sw.js:18-23 | An error is retryable exactly when it is a `TypeError` whose message contains `error code N`, as a substring, for some N in {35, 55, 56, 7, 28}. |
| ServiceWorker.ErrorCode70IsRetried | public/sw.js:8-23 | Through substring matching, `error code 70` counts as code 7. |
| ServiceWorker.OnlyTypeErrorsRetried | public/sw.js:19 | No error of another class is retryable. |
| ServiceWorker.Attempt | public/sw.js:33-37 | A response comes only when `loadConfig` did not throw. It is the engine's when `route` holds, and the plain fetch's otherwise. |
| ServiceWorker.IsMalformedData | public/sw.js:40 | A failure that gives 400 is never also retryable, and a `SyntaxError` escapes this test only without a message. |
| ServiceWorker.DeliverFrom | public/sw.js:31-66 | From any attempt there is at least one more attempt and at most `MAX_RETRIES + 1` in all, the delays are the attempts less one, and a logged error comes with the 500 response. |
| ServiceWorker.Deliver | public/sw.js:29-67 | A whole delivery makes one to three attempts with one delay fewer, and logs an error only with the 500 response. |
| ServiceWorker.HandleRequest | public/sw.js:29-67 | The loop returns exactly `Deliver(net)`: 1 to 3 attempts, one 300 ms delay fewer than attempts, and always a response. |
| ServiceWorker.DeliverExplained | public/sw.js:29-67 | Every attempt before the last failed retryably and was followed by a delay. The last attempt alone decides the response: its own response, 400 for malformed data, or 500 with its error logged. |
| ServiceWorker.AllRetryableFailures | public/sw.js:46-66 | When every attempt fails retryably there are exactly 3 attempts and 2 delays, and the third error is logged with the 500. |
| ServiceWorker.MalformedDataStopsAtOnce | public/sw.js:40-43 | A `SyntaxError` with a message at attempt j gives 400 at once: j + 1 attempts, j delays, no further attempt and no log. |
| ServiceWorker.SuccessIsReturnedUnchanged | public/sw.js:33-37 | A successful attempt's response is returned as it is, with as many delays as earlier attempts. |
| ServiceWorker.OtherFailureStops | public/sw.js:56-66 | A failure that is neither malformed data nor retryable ends the loop after that attempt with the 500 response and that error logged. |
| ServiceWorker.WaitIsBounded | public/sw.js:46-53 | Delivery waits 300 ms per retried attempt, one wait fewer than attempts, so at most 600 ms in all. |
| ScramjetConfig.MatchesPatternIff | public/scramjet.config.js:31-33 | The pattern test holds exactly when the message is non-empty and contains one of the patterns. |
| ScramjetConfig.MatchesPattern | public/scramjet.config.js:31-33 | A message matches only when it is non-empty and there is at least one pattern. |
| ScramjetConfig.IsJsonError | public/scramjet.config.js:18-33 | Only a `SyntaxError` with a non-empty message counts as JSON noise. |
| ScramjetConfig.IsOperationError | public/scramjet.config.js:42 | Every `DOMException` counts as an operation error. Of the other kinds, exactly those named `OperationError` do. |
| ScramjetConfig.ErrorHandler | public/scramjet.config.js:16-49 | A warning's excerpt is a prefix of the message, of length `min(100, length)`, or the error's name when there is no message. |
| ScramjetConfig.RunErrorHandler | public/scramjet.config.js:16-49 | The handler throws a `TypeError` exactly on `null` or `undefined` (line 42 reads `err.name`), and on any other value returns what `ErrorHandler` gives. |
| ScramjetConfig.JsonNoiseSkipped | public/scramjet.config.js:18-38 | A `SyntaxError` whose message contains any of the eight patterns is skipped as invalid data. |
| ScramjetConfig.EmptyMessageIsNotJson | public/scramjet.config.js:31-33 | An error without a message is never JSON noise. |
| ScramjetConfig.OperationErrorSkipped | public/scramjet.config.js:42-45 | An error named `OperationError`, or any `DOMException`, is skipped and not logged. Unless it is JSON noise caught earlier, it is skipped as an operation error. |
| ScramjetConfig.UnmatchedSyntaxErrorFallsThrough | public/scramjet.config.js:18-48 | A `SyntaxError` that matches no pattern is handled as any other error with the same name and message. |
| ScramjetConfig.LoggedExactlyWhenUncaught | public/scramjet.config.js:16-49 | An error is logged exactly when it is neither JSON noise nor an operation error. |
| ScramjetConfig.ExcerptBounded | public/scramjet.config.js:36-43 | A warning's excerpt is at most the first 100 characters of the message, or the name when there is no message. |
| ScramjetConfig.UnexpectedTokenSkipped | public/scramjet.config.js:20-37 | `Unexpected token < in JSON at position 0` is skipped with the whole message as excerpt. |
| App.LoadSettings | public/app.js:4-15 | With nothing stored or unparsable text, the defaults apply (the DuckDuckGo template, adblock off, theme `system`). Otherwise each saved key overrides its default. |
| App.ResolveTheme | public/app.js:22-28 | `system` resolves to `dark` exactly when the dark scheme is preferred, and to `light` otherwise. Any other theme is kept, so the result is never `system`. |
| App.Loaded | public/app.js:57-63 | The page as loaded keeps the invariant and has the stored settings, home shown, no frame, no interval and the existing transport. |
| App.WispUrl | public/app.js:99-103 | The endpoint is the scheme (`wss://` on `https:` pages, `ws://` otherwise), then the page's host, then `/wisp/`. |
| App.WispUrlShape | public/app.js:99-103 | The websocket endpoint starts with `wss://` exactly on an `https:` page, and it ends in `/wisp/`. |
| App.ConfiguredTransport | public/app.js:105-109 | Afterwards the transport is libcurl. An existing libcurl transport is kept as it is, and any other is replaced by libcurl over the page's endpoint. |
| App.RemoveFrame | public/app.js:113 | The removed frame is gone from the container, every other frame remains, and a container without that frame is left as it is, order included. |
| App.MonitorState | public/app.js:139-157 | Without a current frame nothing changes. With one, none is removed and, under the invariant, exactly one is added; nothing else changes. |
| App.InterceptState | public/app.js:160-200 | The current frame joins the patched frames exactly when its window can be reached; no other frame joins, and nothing else changes. |
| App.ConfigureState | public/app.js:99-109 | Afterwards the transport is libcurl. An existing libcurl transport leaves the session as it was, any other becomes libcurl over the page's endpoint, and nothing else changes. |
| App.SwapFrameState | public/app.js:111-119 | The old current frame is gone from the container, and the new frame, with a fresh id and the URL, is current and last in the container. Nothing else changes. |
| App.DisplayState | public/app.js:121-132 | The container is shown instead of home, the settings panel is hidden and closed, the bar shows the URL, and nothing else changes. |
| App.ShowFrameState | public/app.js:97-132 | After the rest of a navigation once registration succeeded, taken as one step (see the asynchronous-interleaving line under Left out), a fresh current frame holds the resolved URL, which the bar shows. Home is hidden, the settings are closed and the transport is libcurl. The intervals, settings and interception are untouched, and the invariant is kept. |
| App.NavigateState | public/app.js:89-137 | A failed registration changes nothing. Otherwise there is a new current frame for the resolved URL, home is hidden, the container is shown, settings are closed, the bar shows the URL, the transport is configured, one interval is added and none is removed. The new frame's `open` is patched exactly when its window can be reached, click interception is untouched, and the frame and interval counters each advance by one. The only frame is the current one. |
| App.HomeState | public/app.js:252-262 | No current frame and no frames, the container and settings hidden, home shown and the bar empty. Nothing else changes: the intervals, transport, settings, theme and interception are untouched. |
| App.TickState | public/app.js:143-157 | With no current frame the tick clears its own interval and nothing else. An unreadable location changes nothing. A readable one replaces the bar only when it is non-empty, differs from the bar and is not an `about:` page. |
| App.ShouldShow | public/app.js:151 | A location is copied into the bar only when it is non-empty and differs from the bar, and never when it starts with `about:`. |
| App.FrameLoadState | public/app.js:178-196 | A load the listener hears replaces the document: afterwards the current frame's clicks are intercepted exactly when the new document could be reached. Without the listener nothing changes, and no other frame is affected. |
| App.WindowOpenState | public/app.js:168-175 | An empty URL or a failed registration changes nothing. Otherwise the bar shows the resolved URL. The invariant is kept. |
| App.OpensNewContext | public/app.js:184 | Ordinary links (no target, `_self`, `_parent`, `_top`) are not intercepted. |
| App.LinkClickState | public/app.js:182-191 | A click outside a `_blank` or `_new` anchor with an href changes nothing. Otherwise, after a successful registration, the bar shows the resolved href. |
| App.SubmitState | public/app.js:205-216 | An all-white-space field, or a failed registration, changes nothing. Otherwise the bar shows the resolved trimmed text. |
| App.EditNavbarState | public/app.js:214 | Typing sets the bar's text and changes nothing else. |
| App.ToggleSettingsState | public/app.js:265-302 | The button flips whether the settings are open. Closing hides the panel. Opening shows it once its markup has arrived. Nothing else changes. |
| App.SaveSettingsState | public/app.js:290-298 | The chosen settings replace the current ones, the resolved theme goes on the document, the panel is hidden and closed, and nothing else changes. |
| App.SchemeChangeState | public/app.js:65-70 | Only under the `system` theme does the document's theme follow the new preference; otherwise nothing changes. |
| App.Step | public/app.js:89-302 | Every event keeps the invariant: the container holds exactly the current frame, the ids are fresh, the panel is shown only while open (with the panel's markup arriving at the press, see below), and the document's theme is resolved. |
| App.Controller.constructor | public/app.js:57-63 | The controller starts as `Loaded`: the stored settings with their theme applied, home shown, no frame, no interval and the existing transport. |
| App.Controller.MonitorIframeNavigation | public/app.js:139-158 | It starts a fresh interval when there is a current frame, and otherwise does nothing. |
| App.Controller.InterceptNewWindowOpens | public/app.js:160-200 | It patches `open` and adds the load listener when there is a current frame and its window can be reached. |
| App.Controller.ConfigureTransport | public/app.js:99-109 | It sets libcurl over the endpoint unless libcurl is in place, and changes nothing else. |
| App.Controller.SwapFrame | public/app.js:111-119 | The old frame is removed before the new one is made, appended and kept. |
| App.Controller.DisplayFrame | public/app.js:121-132 | It shows the container rather than home, closes settings and shows the URL in the bar. |
| App.Controller.NavigateToUrl | public/app.js:89-137 | The new state is `NavigateState` of the old one, and the container still holds just the current frame. |
| App.Controller.PollTick | public/app.js:143-157 | The new state is `TickState` of the old one. |
| App.Controller.GoHome | public/app.js:252-262 | The new state is `HomeState` of the old one. |
| App.Controller.FrameLoaded | public/app.js:178-196 | The new state is `FrameLoadState` of the old one: the click listener is in force exactly when the latest document could be reached. |
| App.Controller.WindowOpen | public/app.js:168-175 | A non-empty URL navigates the session and `null` is returned. An empty one is delegated to the original `open`. |
| App.Controller.LinkClick | public/app.js:182-191 | The default is prevented exactly for anchors with target `_blank` or `_new`, which navigate to a non-empty href. |
| App.Controller.SubmitHome | public/app.js:205-209 | It navigates to the trimmed field text when that text is non-empty. |
| App.Controller.SubmitNavbar | public/app.js:212-216 | It navigates to the trimmed bar text when that text is non-empty. |
| App.Controller.EditNavbar | public/app.js:214 | The new state is `EditNavbarState` of the old one. |
| App.Controller.ToggleSettings | public/app.js:265-302 | The new state is `ToggleSettingsState` of the old one. |
| App.Controller.SaveSettings | public/app.js:290-298 | Pressed on the shown panel, the new state is `SaveSettingsState` of the old one. |
| App.Controller.ColourSchemeChanged | public/app.js:65-70 | The new state is `SchemeChangeState` of the old one. |
| App.RunPreservesInv | public/app.js:89-302 | Any sequence of events leaves at most one frame, the current one, and a resolved theme on the document. |
| App.ReachableSessionsValid | public/app.js:57-63 | Every session reachable from the page as loaded keeps the invariant, and its settings panel is shown only while open, with the panel's markup arriving at the press. |
| App.TwoNavigationsTwoPolls | public/app.js:135-157 | Two navigations add two live intervals, not one, and leave a single frame, for the second target. |
| App.SecondNavigationKeepsTransport | public/app.js:105-109 | After one navigation the transport is libcurl, and a second navigation does not reconfigure it. |
| App.TicksWithoutFrameDrain | public/app.js:143-147 | Without a current frame, ticks only remove the intervals that ticked. |
| App.DrainAfterHome | public/app.js:143-147 | After Home, once every live interval has ticked, none is left and nothing else has changed. |
| App.TickWithFrame | public/app.js:149-156 | While a frame is shown, a tick keeps the intervals. The bar either stays or takes a readable, non-empty, non-`about:` location, and nothing else changes. |
| App.TickOverwritesTypedText | public/app.js:149-153 | Typed text is replaced by the next tick that reads a different, non-empty, non-`about:` location, and kept by a tick that cannot read the location. |
| App.ClicksFollowLatestDocument | public/app.js:178-195 | After a load of a reachable document a `_blank` link navigates the session. After a later load of an unreachable one the same click leaves the session as it was. |
| App.SubmitTypedText | public/app.js:212-216 | Typing into the bar and submitting it navigates to the trimmed typed text: a fresh frame for its resolution, shown in the bar. |
| App.SavedEngineIsUsed | public/app.js:290-298 | After a save (the engine is read back at line 97), the next navigation resolves its input with the chosen search engine. |
| App.ToggleTwice | public/app.js:265-302 | Pressing the settings button twice on closed settings leaves the session as it was. |
| App.PopupRedirect | public/app.js:168-173 | `open` with a non-empty URL leaves a single frame for that URL, and an empty URL leaves the session as it was. |
| App.LinkClickRedirect | public/app.js:182-190 | A `_blank` or `_new` link navigates to its href without a second frame, and any other click leaves the session as it was. |
| App.SubmitGuard | public/app.js:205-216 | An all-white-space field changes nothing. Otherwise the session navigates to the trimmed text and hides home. |
| App.HomeThenNavigate | public/app.js:252-262 | Navigating after Home yields one fresh frame, but the intervals running before Home are still live. |

## Left out

- src/index.js is not part of this model. It is the HTTP server: static
  mounts, COOP/COEP headers, upgrade handling and shutdown, all I/O.
- The WHATWG URL parser is left out. It is the `parse` argument, which gives
  each string's serialisation and hostname, or `None` where `new URL`
  throws.
- Lone surrogates, for which `encodeURIComponent` throws `URIError`, cannot
  occur: a Dafny `char` is a Unicode scalar value.
- Internals of the proxy engine, BareMux and libcurl are left out:
  `loadConfig`, `route`, the engine's `fetch`, `createFrame`, `go` and
  `registerSW`. They are oracles or parameters, and a frame is an id with
  the URL it was sent to.
- `getTransport` and `setTransport` are modelled as reading and writing the
  session's `transport` field. The BareMux connection (public/app.js:55) is
  shared with other pages, whose `setTransport` calls the model does not
  see: `getTransport` reads back this page's own last `setTransport`.
- Rejections of `getTransport` and `setTransport` are not modelled, and
  neither is a throw from `createFrame` (public/app.js:117) or from
  `currentFrame.go(url)` (public/app.js:129). The first would leave the old
  frame removed and no new one in place; the second would leave the new
  frame shown but skip the bar update, the poll and the interception.
- Timers are counted rather than timed: the 300 ms wait is a delay count, and
  the 500 ms poll is an explicit tick event.
- Asynchronous interleaving is left out. Each `navigateToUrl` runs to the end
  before the next event. The model does not cover a second navigation that
  starts while the first awaits `registerSW` or the transport, nor the
  un-awaited navigations started by `open` and clicks. Likewise the settings
  panel's markup either has arrived when the button is pressed
  (`panelLoaded`) or is not shown for that opening.
- Logging is left out except for which log `errorHandler` writes and which
  error `handleRequest` reports with `console.error`. The `console.warn`
  lines and their 100- and 120-character excerpts in public/sw.js are not
  modelled.
- JsString.Take: the prefix length counts code points, while `substring`
  counts UTF-16 code units. The two agree on text without code points above
  U+FFFF (`JsString.TakeInBasicPlane`) and differ otherwise.
- ScramjetConfig.ErrorHandler: the 100-character excerpt inherits the
  code-point count of `JsString.Take`. Its argument is an error value; the
  `null` and `undefined` cases, on which the handler throws, are covered by
  `ScramjetConfig.RunErrorHandler`.
- A thrown `null` or `undefined` inside `handleRequest` fails both
  `instanceof` tests in public/sw.js and is handled like
  `JsError(OtherError, "", "")`: a 500 with it logged.
- LoadSettings: the saved record has the three typed keys. Stored values of
  another type and extra keys, which `Object.assign` would also copy, are
  not modelled.
- The settings panel is modelled by whether it counts as open and whether it
  is shown, and its save button by the settings it saves. Left out: the
  panel's HTML and its controls (the adblock label), the `localStorage`
  write of `saveSettings`, and `applyTheme`'s write of the theme into a
  reachable frame's document.
- App.Controller.SaveSettings: it requires the panel to be shown, since the
  save button is inside it and cannot be pressed while it is hidden.
- These are left out; none of them changes the modelled state: back,
  forward and reload, and the fullscreen button.
- A throw in `interceptNewWindowOpens` before the load listener is added
  skips both the `open` patch and the listener. Whether the window can be
  reached is one parameter that decides both.
- App.Step: the `open` patch is tracked per frame. In the browser it lives
  on the window object read at public/app.js:164, which a navigation of the
  frame to a new document can replace; the model keeps the patch in force
  through later loads. Only the click listener, re-added on each load by
  the listener on the frame element, follows the latest document.
- App.Step and App.ReachableSessionsValid: "the panel is shown only while
  open" holds only because the model takes the panel's markup to arrive at
  the press (`panelLoaded`). In the source the button flips `settingsOpen`
  (public/app.js:266) before awaiting `/settings.html` (269-270), and lines
  271-272 show the panel whatever `settingsOpen` has become by then. So a
  second press, a navigation (126-127) or Home (258-259) before the markup
  arrives leaves the panel shown while `settingsOpen` is false.
- App.Step: ticks of cleared intervals, and `open` or clicks in frames
  that were not intercepted, leave the session unchanged.
- The initial visibility is taken as the page markup sets it: home shown,
  container and settings hidden. The markup is not part of this model.
