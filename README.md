# Nexus AI chat page: service-worker cache policy and page-script bookkeeping

A Dafny model of the two pieces of logic in a static, in-browser chat page that runs a
language model locally.

- **The service worker** (`sw.js`) is modelled in `service_worker.dfy`.
  - The browser's cache storage is a class, `CacheStorage`. It holds the cache names in
    creation order (the order `caches.keys()` reports and `caches.match` searches) and,
    per name, a map from request URL to response.
  - The network is an oracle. Each fetch yields a response with a status, or a rejection.
  - Requests are keyed by their absolute URL, as `event.request.url` gives it. The four shell
    paths are resolved against the deployment origin `https://ywet290-beep.github.io`, the
    address the page's "Open in New Tab" link points to.
  - `cache.put` rejects, storing nothing, a partial (status 206) response. The handlers
    pass it only ok responses and never look at that rejection, so they return the
    response all the same.
  - The install, fetch and activate handlers are methods. Each is proved to produce exactly
    the storage given by a pure function (`Installed`, `Fetch`, `Pruned`). The promised
    properties are lemmas about those functions.
  - `caches.open(name)` creates the cache, empty, when it does not exist, and the model
    keeps that. So a cache-first rejection changes no cache contents, but it can leave a
    new, empty model cache behind.
  - `cache.addAll` writes all four shell URLs or none. It rejects when any fetch rejects
    or any response is not ok or is partial, as the Cache interface of the W3C Service
    Workers specification defines it.
- **The page script** (`app.js`) is modelled in `chat_app.dfy`, without its DOM rendering.
  - Its module-level state is a class, `App`. The fields are the selected model, the engine
    handle, the send button's disabled flag, the status text, the progress-bar width, the
    displayed model name, the input field, the key-value store and the transcript.
  - The in-browser inference engine is an oracle. Engine creation reports progress texts
    and then yields a handle or fails. A chat completion throws at once, or streams chunks
    and then finishes or throws.
  - The GPU probe (`navigator.gpu`) is a boolean parameter.
- `common.dfy` holds `Option` and JavaScript's `String.prototype.includes`.

Points about the code worth knowing:

- `initEngine` makes exactly one `CreateMLCEngine` attempt. There are no backend tiers.
- Nothing supersedes an overlapping initialisation or send.
- The send guard never trims its input. The `.strip` test is always false for a
  JavaScript string, so whitespace-only input is sent.
- When the stream fails, the partial reply is not kept. The AI message is replaced by a
  fixed error text.
- Without a GPU, `initEngine` fails before it tries to create an engine.

## Model

| member | source | states |
|---|---|---|
| `Common.IncludesIff` | sw.js:26 | the substring test used by the classifier holds exactly when the marker occurs at some index of the URL |
| `ServiceWorker.ModelArtifactIff` | sw.js:26 | a request is a model artifact exactly when its URL contains ".wasm", "tokenizer" or "model"; every other request goes network-first |
| `ServiceWorker.ModelDirectoryIsArtifact` | sw.js:26 | any URL with "model" anywhere in it is handled cache-first |
| `ServiceWorker.ShellUrlsAreNotArtifacts` | sw.js:8-13 | none of the four pre-cached shell paths, resolved against the deployment origin into the absolute URL the handler tests, is a model artifact, so all of them are served network-first |
| `ServiceWorker.Opened` | sw.js:28 | after `caches.open(name)` the named cache exists |
| `ServiceWorker.CacheStorage.Open` | sw.js:7 | `caches.open` adds the named cache, empty and last in order, only when it is absent |
| `ServiceWorker.CacheStorage.Put` | sw.js:34 | `cache.put` maps the URL to the response in that one cache and changes nothing else; a partial (206) response is rejected and nothing changes |
| `ServiceWorker.CacheStorage.Delete` | sw.js:68 | `caches.delete` removes the cache and its name and keeps the storage well formed |
| `ServiceWorker.InstallAllOrNothing` | sw.js:5-19 | install never fails; on success the shell cache holds all four shell URLs with their responses and keeps every other entry it had, adding nothing else; on failure it keeps its previous contents (empty if new); no other cache changes |
| `ServiceWorker.CacheStorage.Install` | sw.js:5-19 | the install handler's new storage is exactly the all-or-nothing `Installed` storage |
| `ServiceWorker.CacheFirstHit` | sw.js:28-30 | a model artifact already in the model cache is returned from it, with no fetch and no storage change |
| `ServiceWorker.CacheFirstMiss` | sw.js:32-37 | on a miss the network is fetched; the response is returned whatever its status and stored in the model cache only when ok and not partial; otherwise, and on a rejection (which propagates), the only change is the possibly new, empty model cache |
| `ServiceWorker.RepeatedArtifactRequest` | sw.js:28-37 | a second identical model-artifact request is served from the cache, with the same reply and no fetch, exactly when the first was a hit or fetched an ok, non-partial response |
| `ServiceWorker.NetworkFirstOutcomes` | sw.js:45-58 | network-first stores an ok response in the shell cache and returns it (a partial one only opens the cache); a non-ok response is returned unstored with no fallback; only a rejection falls back to `caches.match`, which answers exactly when some cache holds the URL, with the entry of the first such cache in creation order |
| `ServiceWorker.FirstMatchSpec` | sw.js:56 | `caches.match` finds a response exactly when some cache holds the URL, and returns the entry of the first such cache in creation order, so an older stale cache shadows the shell cache until activation |
| `ServiceWorker.FetchFrame` | sw.js:22-59 | a fetch writes only the model cache (for artifacts) or only the shell cache (for everything else); every other cache keeps its contents and the storage stays well formed |
| `ServiceWorker.CacheStorage.HandleFetch` | sw.js:22-59 | the fetch handler's reply, network use and new storage are exactly those of `Fetch` |
| `ServiceWorker.ActivationKeepsOnlyCurrent` | sw.js:62-74 | after activation only the two current cache names can remain, both keep their contents, and activating again changes nothing |
| `ServiceWorker.CacheStorage.Activate` | sw.js:64-71 | walking the reported names and deleting each stale one yields exactly the `Pruned` storage |
| `ChatApp.InitialModel` | app.js:11 | the start-up selection is never empty; it is the stored value when that is present and non-empty, and the default model otherwise |
| `ChatApp.DisplayName` | app.js:71 | the shown name is the registry's name for a known identifier, and the identifier itself otherwise |
| `ChatApp.RunEnd` | app.js:51 | the end of the maximal run of ASCII digits starting at a position |
| `ChatApp.PercentFromSpec` | app.js:51 | scanning from a position finds nothing exactly when no digit is followed by '%' from there on, and otherwise returns the whole digit run ending at the first such '%' |
| `ChatApp.PercentMatchSpec` | app.js:51-53 | `/(\d+)%/` fails exactly when no digit is directly followed by '%'; otherwise its capture is the leftmost digit run directly followed by '%' |
| `ChatApp.LeftmostCaptureUnique` | app.js:51 | any leftmost digit run before '%' is exactly what the match captures |
| `ChatApp.ProgressWidthUnclamped` | app.js:51-54 | a report whose first digits are the run directly before '%' sets the width to that run plus "%", with no clamping (250% stays 250%) |
| `ChatApp.WidthAfterSpec` | app.js:46-54 | after a run of reports the width is unchanged when no report had a percentage, and otherwise is the percentage of the last report that had one |
| `ChatApp.AccumulatedIsJoined` | app.js:153-157 | fragment-by-fragment accumulation equals all fragments concatenated in order, a missing `delta.content` contributing "" |
| `ChatApp.AccumulatedGrows` | app.js:154-157 | each displayed snapshot of the streamed reply is a prefix of every later one |
| `ChatApp.FinalAiTextSpec` | app.js:142-163 | the AI message ends as the fixed error text whenever `create` or the stream throws (partial text discarded), and as the concatenated fragments otherwise |
| `ChatApp.App.constructor` | app.js:11-25 | start-up state: the stored (or default) selection and no engine |
| `ChatApp.App.OnProgress` | app.js:46-55 | the status shows the report text; the width takes the report's percentage or stays as it was |
| `ChatApp.App.InitEngine` | app.js:40-111 | one attempt; without a GPU it fails before creation; on failure the engine is unchanged, sending is disabled and the width is what the progress reports left; on success the engine is set, sending enabled, width "100%", the name shown is the display name and `model_cached_<id>` is "true" |
| `ChatApp.App.BeginModelChange` | app.js:28-35 | the new id is selected and stored under "selectedModel"; the engine is dropped, sending disabled and the width reset to "0%" before re-initialisation |
| `ChatApp.App.OnModelChange` | app.js:28-37 | after a model change the choice is persisted, the transcript is untouched, and an engine is present (with sending enabled) exactly when the re-initialisation succeeded; the status is ready or failed accordingly, the width is "100%" on success, otherwise what the progress reports left after the reset to "0%" ("0%" without a GPU), and the shown name changes only on success |
| `ChatApp.App.HandleSend` | app.js:128-164 | an empty input or a missing engine makes the send a no-op; otherwise the raw input is cleared, the prompt is exactly the fixed system message plus the user's text, one user and one AI message are appended, the AI message shows "" right after it is appended and the accumulated fragments after every chunk, and ends as `FinalAiText` |
| `ChatApp.SendDuringReload` | app.js:28-36 | a send issued while a model change is reloading is ignored: no engine call, no transcript change |

## Left out

- `deploy_to_github.py`: git subprocesses, GitHub REST calls and prompts; pure I/O.
- DOM rendering: the help overlay (app.js:84-109), message element creation and
  scrolling (app.js:114-125), textarea auto-resize (app.js:176-180), status-dot colours,
  hiding the welcome screen, and syncing the select widget (`modelChoice.value`,
  app.js:72).
- The "..." placeholder of the AI message (app.js:139-140): it is cleared before anything
  is awaited, so the model appends the AI message with empty text.
- The key bindings (click, and Enter without Shift, app.js:167-174): both call
  `handleSend`, which is modelled.
- The start-up call (app.js:182-194): its GPU check only logs a warning before calling
  `initEngine`, which is modelled.
- The initial markup of the page (`index.html`) is not part of this model. Its values are
  the constructor's `Page` parameter.
- `console` logging.
- Asynchrony: `skipWaiting`, `waitUntil`, and the non-awaited `cache.put` calls, which are
  modelled as finished before their handler returns. Interleaving of overlapping
  initialisations, sends or fetches is not modelled; each operation runs atomically.
- Requests and responses: a request is keyed by its URL alone. Request methods, `Vary`,
  other matching options, response bodies and cloning are not modelled.
- Regular expressions in general: only the one `/(\d+)%/` scan is modelled.
- ChatApp.App.HandleSend: a chunk without a `choices` field makes the loop throw, and that
  is modelled as a stream that throws. A `delta.content` that is not a string is not
  modelled.
- ChatApp.DisplayName: does not model lookups of names inherited from `Object.prototype`
  (such as "toString"), which JavaScript would find in `AVAILABLE_MODELS`.
- ChatApp.App.InitEngine: does not model `localStorage.setItem` throwing (for example,
  over quota). In that case the code would report failure while keeping the new engine.
- ChatApp.App.BeginModelChange: does not model `localStorage.setItem` at app.js:30
  throwing. In that case the handler would stop before dropping the engine or
  re-initialising.
- ServiceWorker.CacheStorage.Put: does not model a put that rejects for lack of storage
  quota. The rejection of a partial (206) response is modelled.
- ServiceWorker.RepeatedArtifactRequest: assumes the first request's put, when its response
  is storable, is not refused for lack of quota.
