# frontend-kit core, modelled in Dafny

A model of the logic at the heart of the `lowcode-yunti` frontend kit, with
proofs of what it promises:

- **Server-sent events** (`packages/common/src/axios/sse.ts`): `parseSSEMessage`
  turning one frame into an optional message event (`SseFrame`), the
  chunk-buffering loop of `createSSEConnection` that splits the text on
  `"\n\n"` and hands on complete frames (`SseBuffer`), and the connection's
  lifecycle: `isClosed`, `close()`, and the guards around onOpen, onMessage,
  onError and onClose (`SseConnection`, a state machine stepped by signals).
- **Request configuration and token refresh**
  (`packages/common/src/axios/index.ts`): the merge of `defaultAxiosConfig`
  with the caller's `axiosConfig` and the headers of the event-stream request
  (`AxiosConfig`). Also the per-instance refresh coordinator: `isRefreshing`,
  `failedQueue`, `processQueue` and the response-error interceptor
  (`TokenRefresh`, a state machine stepped by events).
- **Utilities in two copies**: `formatString` (`Format`) and `deepClone`
  (`JsValue`) from `packages/common/src/index.ts` and the older
  `common/utils/index.js`. Their callers `greet` and `createUserProfile` from
  `packages/knowledge/src/index.ts` and `packages/core/src/index.js` are in
  `Profile`.
- **The ellipsis breadcrumb**
  (`packages/kit/src/components/EllipsisBreadcrumb/index.tsx`): the split
  into visible and hidden items and the greedy width fit (`Breadcrumb`).
- **The build preset** (`build.preset.ts`): the two import-specifier
  rewrite rules of `relativePathsPlugin.renderChunk` and
  `getPackageBaseOutDir` (`BuildPreset`). Both rules sit on a model of
  Node's POSIX `path.normalize`, `path.join` and `path.relative` (`PosixPath`).

`Wrappers` (an `Option` type) and `Text` (searching, splitting and joining
strings, and decimal digits) are shared helpers.

Values are immutable trees, so object identity is not modelled: "the same
object" and "a structurally equal object" coincide. JavaScript's asynchrony
is modelled as a sequence of events, one at a time. A stream connection is
stepped by `close()`, the request settling, and the reads. A refresh
coordinator is stepped by an error reaching the interceptor and by
`await refreshToken()` settling. Every step records the callbacks or
actions it performs.

The token-refresh interceptor of `createAxiosInstance` has none of the
following:
- a `_retry` marker on retried requests;
- detection of 401/403 responses (eligibility is the caller's
  `shouldRefreshToken`);
- injection of an `Authorization` header;
- a login redirect or clearing of stored tokens.

None of them is modelled, and a retried request that fails again can
start a fresh refresh.

## Model

| member | source | states |
|---|---|---|
| SseFrame.ParseIntNaN | packages/common/src/axios/sse.ts:80 | `Number.parseInt(text, 10)` is NaN exactly when no digit follows the skipped white space and the optional sign |
| SseFrame.ParseIntSkipsWhitespace | packages/common/src/axios/sse.ts:80 | leading white space does not change the retry value |
| SseFrame.ParseIntDecimal | packages/common/src/axios/sse.ts:80 | the decimal spelling of any integer, followed by a non-digit, reads back as that integer |
| SseFrame.PrefixesExclusive | packages/common/src/axios/sse.ts:73-81 | a line carries at most one of the four field prefixes, so the order of the `else if` chain does not matter |
| SseFrame.ScanLinesLastWins | packages/common/src/axios/sse.ts:69-82 | after the line loop each field holds the text after its prefix on the last line carrying it, and stays unset when no line carries it |
| SseFrame.ParseSSEMessageSpec | packages/common/src/axios/sse.ts:68-85 | a frame yields an event exactly when some line starts with `data: `; data, type, id and retry come from the last line with their prefix |
| SseFrame.BlankFrameHasNoEvent | packages/common/src/axios/sse.ts:138-139 | a white-space-only frame never yields an event |
| SseBuffer.FeedChunkSpec | packages/common/src/axios/sse.ts:130-134 | one buffering step loses and invents nothing: the frames and the kept buffer, joined with `"\n\n"`, are the old buffer followed by the chunk, and none of them contains `"\n\n"` |
| SseBuffer.ChunkingInvariance | packages/common/src/axios/sse.ts:124-145 | feeding chunks one by one hands on the same frames and keeps the same buffer as feeding their concatenation at once |
| SseBuffer.FeedChunkAppend | packages/common/src/axios/sse.ts:130-134 | feeding `c + more` equals feeding `c`, then `more` into the buffer `c` left |
| SseBuffer.TwoChunks | packages/common/src/axios/sse.ts:130-134 | two chunks give the frames and buffer of their concatenation |
| SseBuffer.DeliverIgnoresBlankTest | packages/common/src/axios/sse.ts:137-144 | skipping white-space-only frames changes nothing about the events handed to onMessage |
| SseBuffer.DeliverAppend | packages/common/src/axios/sse.ts:137-144 | the events of two runs of frames are the events of the first followed by those of the second |
| SseBuffer.DeliveredComeFromFrames | packages/common/src/axios/sse.ts:137-144 | every event handed on is the parse of one of the frames |
| SseConnection.RunKeepsValid | packages/common/src/axios/sse.ts:164-172 | the abort controller fires exactly when the connection is closed, and a closed connection stays closed |
| SseConnection.CloseIsIdempotent | packages/common/src/axios/sse.ts:164-172 | the first `close()` sets `isClosed`, aborts and fires onClose; a second one does nothing |
| SseConnection.ClosedIsSilent | packages/common/src/axios/sse.ts:114-162 | once closed, the response, read, catch and finally paths invoke neither onOpen nor onError nor onClose |
| SseConnection.EndThenCloseFiresTwice | packages/common/src/axios/sse.ts:150-171 | a natural end of the stream does not set `isClosed`, so a later `close()` fires onClose a second time |
| SseConnection.FailThenCloseFiresTwice | packages/common/src/axios/sse.ts:157-171 | a failed request fires onError and onClose without setting `isClosed`; a later `close()` fires onClose again |
| SseConnection.StepBudget | packages/common/src/axios/sse.ts:103-172 | no single signal fires more onOpen, onError or onClose calls than the state has left |
| SseConnection.RunBudget | packages/common/src/axios/sse.ts:103-172 | over any trace, the calls of each lifecycle callback stay within the starting state's budget |
| SseConnection.FreshConnectionBudget | packages/common/src/axios/sse.ts:93-173 | over any trace from a new connection, onOpen and onError fire at most once each and onClose at most twice |
| SseConnection.ReadsDeliverFrames | packages/common/src/axios/sse.ts:124-145 | while the connection is open, reading chunks delivers exactly the events of the frames buffering emits, in order, and keeps the buffer buffering leaves |
| SseConnection.OpenedStreamDelivers | packages/common/src/axios/sse.ts:114-155 | response, chunks, then `done`: onOpen, the events of the whole text's complete frames however it was cut, then onClose; the unterminated remainder is never parsed |
| AxiosConfig.Merge | packages/common/src/axios/index.ts:160-167 | every setting and header of the defaults and the caller is present, and the caller's wins where both have one |
| AxiosConfig.NoConfigGivesDefaults | packages/common/src/axios/index.ts:152-167 | with no `axiosConfig` the instance is configured with exactly the defaults |
| AxiosConfig.MergeIdempotent | packages/common/src/axios/index.ts:160-167 | merging the defaults into a merged configuration again changes nothing |
| AxiosConfig.EmptyUserConfig | packages/common/src/axios/index.ts:160-167 | an empty caller configuration changes nothing |
| AxiosConfig.SseRequest | packages/common/src/axios/sse.ts:103-113 | the stream request keeps the caller's settings and headers, asks for a streamed response over fetch with the connection's own abort signal (replacing any `signal` the caller passed), sets `Accept: text/event-stream`, and adds no other setting or header |
| AxiosConfig.SseRequestIsMerge | packages/common/src/axios/sse.ts:103-113 | the stream request is the caller's configuration merged with the stream settings as `createAxiosInstance` merges, the stream settings winning |
| AxiosConfig.SseRequestIdempotent | packages/common/src/axios/sse.ts:103-113 | a stream request's configuration, with the same abort signal, gives the same stream request again |
| TokenRefresh.ProcessQueue | packages/common/src/axios/index.ts:179-188 | one action per queued request, first queued first: all rejected with the given error, or all replayed with their own configuration |
| TokenRefresh.HandleKeepsValid | packages/common/src/axios/index.ts:173-265 | every event keeps the invariant: no refresh running means an empty queue, and a refresh runs exactly while an interceptor call awaits it |
| TokenRefresh.RunKeepsValid | packages/common/src/axios/index.ts:173-265 | the invariant holds after any trace of events |
| TokenRefresh.IneligibleBypasses | packages/common/src/axios/index.ts:219-273 | an error failing the guard leaves the state alone and goes to onResponseError when configured, otherwise is rejected unchanged; an eligible error goes to neither |
| TokenRefresh.QueuedWhileRefreshing | packages/common/src/axios/index.ts:228-236 | an eligible error during a refresh is only appended to the queue; `refreshToken` is not called again |
| TokenRefresh.SingleFlight | packages/common/src/axios/index.ts:228-265 | over any trace, the calls of `refreshToken` exceed the settlements of pending refreshes by at most the one refresh still running, and from a valid state the count is exact |
| TokenRefresh.BurstIsQueued | packages/common/src/axios/index.ts:228-236 | during a refresh, a burst of eligible errors is queued in arrival order and nothing else happens |
| TokenRefresh.BurstThenRefreshed | packages/common/src/axios/index.ts:238-249 | a burst on an idle instance calls `refreshToken` once; on success the queue is replayed in order before the first request is retried, and the instance ends idle |
| TokenRefresh.BurstThenNotRefreshed | packages/common/src/axios/index.ts:250-255 | on a false result the queue is rejected with the first error, onRefreshTokenFailed gets that error once, and the first request is rejected with it |
| TokenRefresh.BurstThenThrew | packages/common/src/axios/index.ts:256-262 | when the refresh throws the queue is rejected with the first error, but the first request is rejected with what was thrown |
| TokenRefresh.SettleResets | packages/common/src/axios/index.ts:263-265 | every settlement leaves `isRefreshing` false and the queue empty |
| TokenRefresh.InstancesAreIsolated | packages/common/src/axios/index.ts:172-174 | under any interleaving, each instance ends where, and acts as, it would on its own events alone |
| TokenRefresh.CreateInstance | packages/common/src/axios/index.ts:149-174 | a new instance starts idle with an empty queue, and with the defaults when no configuration is given |
| JsValue.DeepClone | packages/common/src/index.ts:9-33 | no object the TypeScript clone builds or walks into has an own `__proto__` property (a null-prototype object is returned as it is, keys and all), because `clonedObj[key] = …` runs that key's setter; an object comes back as an object |
| JsValue.DeepCloneExact | packages/common/src/index.ts:9-33 | the TypeScript clone is structurally equal to its input exactly when no object it walks into has an own `__proto__` property |
| JsValue.DeepCloneIdempotent | packages/common/src/index.ts:9-33 | cloning a TypeScript clone again changes nothing |
| JsValue.JsDeepClone | common/utils/index.js:18-40 | a JavaScript clone that does not throw holds no null-prototype object and no own `__proto__` or `hasOwnProperty` property |
| JsValue.JsDeepCloneThrows | common/utils/index.js:31-37 | the JavaScript copy throws exactly when an object it walks into has an own `hasOwnProperty` property, which makes `obj.hasOwnProperty(key)` a call of a non-function |
| JsValue.AgreeWhereFree | common/utils/index.js:18-40 | where the JavaScript copy does not throw and meets no null-prototype object in a kept part, it returns the TypeScript clone |
| JsValue.ClonesAgree | common/utils/index.js:31-40 | the two copies agree exactly when the JavaScript copy does not throw and no kept part is a null-prototype object |
| JsValue.JsDeepCloneExact | common/utils/index.js:18-40 | the JavaScript clone equals its input exactly when it does not throw and meets neither a null-prototype object nor an own `__proto__` property |
| JsValue.JsDeepCloneIdempotent | common/utils/index.js:18-40 | cloning a JavaScript clone again neither throws nor changes anything |
| Format.ScanRender | packages/common/src/index.ts:2 | the regular expression's left-to-right scan loses nothing: its pieces spell the template |
| Format.ScanHolesAreDigits | packages/common/src/index.ts:2 | every match holds one or more decimal digits |
| Format.SubstituteNothing | packages/common/src/index.ts:2-6 | when no placeholder finds an argument, the template comes back as it was |
| Format.UnmatchedTemplateUnchanged | packages/common/src/index.ts:1-7 | with every argument undefined, both copies return the template unchanged |
| Format.ScanWithoutPlaceholder | packages/common/src/index.ts:2 | `/{(\d+)}/g` finds no match in a text in which no `{`, digits, `}` occurs |
| Format.NoPlaceholderUnchanged | packages/common/src/index.ts:1-7 | a template in which no `{`, digits, `}` occurs comes back unchanged from both copies |
| Format.FormatAroundPlaceholder | packages/common/src/index.ts:2-6 | text, placeholder, rest: the text, the replacement (or the placeholder), then the rest on its own; inserted text is never scanned again |
| Format.LonePlaceholder | packages/common/src/index.ts:2-6 | a lone placeholder formats to its argument's text, or stays as it is when there is none |
| Format.TsIgnoresLeadingZeros | packages/common/src/index.ts:3-5 | in the TypeScript copy `{007}` addresses argument 7, like `{7}` |
| Format.JsKeepsNonCanonical | common/utils/index.js:9 | in the JavaScript copy a placeholder with a superfluous leading zero is always kept verbatim |
| Format.CanonicalPlaceholder | packages/common/src/index.ts:1-7 | both copies replace `{n}` by argument n when it is defined and keep it verbatim otherwise |
| Format.CopiesAgreeOnCanonical | common/utils/index.js:7-11 | the copies agree on every template whose placeholders are written canonically |
| Format.CopiesDiffer | common/utils/index.js:9 | the copies differ on `{01}` when argument 1 is defined |
| Profile.KnowledgeGreetSpec | packages/knowledge/src/index.ts:3-5 | the greeting is `"Hello, " + name + "!"` for every name, even one containing `{0}` |
| Profile.CoreGreetSpec | packages/core/src/index.js:8-10 | the same for the JavaScript copy; with no name the greeting is `"Hello, {0}!"` |
| Profile.KnowledgeProfileSpec | packages/knowledge/src/index.ts:17-29 | the profile has the default keys and the caller's keys except an own `__proto__`; a caller's key holds the clone of the caller's value, every other key its default |
| Profile.CoreProfileSpec | packages/core/src/index.js:17-29 | the JavaScript profile throws exactly when the user data shadows `hasOwnProperty`; otherwise it has the same keys, with the caller's values passed through the older clone, extra keys included |
| Profile.EmptyUserDataGivesDefaults | packages/knowledge/src/index.ts:17-29 | with no user data the profile is exactly the defaults, in both copies |
| Profile.PreferencesReplacedWholesale | packages/knowledge/src/index.ts:28 | caller preferences replace the default preferences whole; `notifications` is not merged in |
| Profile.ProfilesAgree | packages/core/src/index.js:17-29 | the two copies build the same profile exactly when the JavaScript one does not throw and no kept part of a user value is a null-prototype object |
| Breadcrumb.InitialSplitReassembles | packages/kit/src/components/EllipsisBreadcrumb/index.tsx:39-75 | with more than two items on a mounted container, the first and last items are visible and the middle ones hidden, in order, so nothing is lost; otherwise everything is visible |
| Breadcrumb.GreedyInRange | packages/kit/src/components/EllipsisBreadcrumb/index.tsx:100-113 | the loop adds middle indices only, each once, from the back to the front |
| Breadcrumb.GreedyWidth | packages/kit/src/components/EllipsisBreadcrumb/index.tsx:98-113 | the accumulated width is the start width plus the added widths, within the container once anything is added; an unmeasured first item adds nothing |
| Breadcrumb.GreedyMaximal | packages/kit/src/components/EllipsisBreadcrumb/index.tsx:100-104 | a middle item the loop passed over would not fit on top of the final width |
| Breadcrumb.VisibleIndicesAscending | packages/kit/src/components/EllipsisBreadcrumb/index.tsx:116-121 | the visible indices run upwards from the first item to the last |
| Breadcrumb.FitVisibleCount | packages/kit/src/components/EllipsisBreadcrumb/index.tsx:94-123 | the fit shows the first item, the last item and one item per index the loop added |
| Breadcrumb.FitVisibleOrder | packages/kit/src/components/EllipsisBreadcrumb/index.tsx:94-123 | with distinct keys, visible starts with the first item, ends with the last and keeps the original order |
| Breadcrumb.FitWithinContainer | packages/kit/src/components/EllipsisBreadcrumb/index.tsx:98-113 | when any middle item is shown, the first item, the ellipsis and the shown items fit in the container |
| Breadcrumb.FitIsMaximal | packages/kit/src/components/EllipsisBreadcrumb/index.tsx:98-113 | no hidden measured middle item would fit on top of the final accumulated width |
| Breadcrumb.RemoveFirstKeyKeep | packages/kit/src/components/EllipsisBreadcrumb/index.tsx:106-111 | with a unique key, `findIndex` and `splice` remove exactly that item |
| Breadcrumb.FitHidden | packages/kit/src/components/EllipsisBreadcrumb/index.tsx:95-124 | with distinct keys, hidden is exactly the middle items not added, in their original order |
| Breadcrumb.SmallListsShowEverything | packages/kit/src/components/EllipsisBreadcrumb/index.tsx:39-68 | with at most two items everything is visible and nothing hidden |
| Breadcrumb.EllipsisSlotExists | packages/kit/src/components/EllipsisBreadcrumb/index.tsx:143 | whenever something is hidden, visible has a second slot for the ellipsis menu |
| PosixPath.NormalizeIsNormal | build.preset.ts:20 | normalisation yields plain segments after a run of `..`, with no `..` in an absolute path |
| PosixPath.NormalIsFixed | build.preset.ts:20 | a path already in normal form is left as it is |
| PosixPath.NormalizeIdempotent | build.preset.ts:20 | normalising twice is normalising once |
| PosixPath.NormalizeJoined | build.preset.ts:20 | a relative path in normal form, joined with `/`, normalises to itself |
| PosixPath.RelativeIgnoresCwd | build.preset.ts:17 | the shared working directory cancels out of `path.relative` |
| PosixPath.RelativeRoundTrip | build.preset.ts:17 | walking the relative path from `from` arrives at `to` |
| PosixPath.RelativeToAncestor | build.preset.ts:17 | from a directory up to the working directory is one `..` per segment |
| BuildPreset.MatchAtComplete | build.preset.ts:13 | every quoted specifier of the rule's shape is matched at its opening quote, as exactly that match |
| BuildPreset.QuoteFreeCopied | build.preset.ts:14 | text without quotes passes through the rewrite unchanged |
| BuildPreset.ReplacedAtMatch | build.preset.ts:14-29 | a match is replaced by its own two quotes around the replacement, and the scan resumes right after it |
| BuildPreset.Relativize | build.preset.ts:24-26 | the result starts with `.` and is the path itself or `./` before it |
| BuildPreset.ForwardSlashes | build.preset.ts:22 | splitting on the POSIX separator and joining with `/` changes nothing |
| BuildPreset.Target | build.preset.ts:22-28 | every replacement either rule makes starts with `.` |
| BuildPreset.PackageTargetPlain | build.preset.ts:15-28 | a package's replacement is `"../"` once per directory level of the chunk and once more, then `<pkg>/index` |
| BuildPreset.AliasTargetPlain | build.preset.ts:34-47 | an aliased path's replacement is `"../"` per directory level then the path, or at the root the path with `./` unless it starts with `.` |
| BuildPreset.PackageRewritten | build.preset.ts:12-48 | under any replacers, a quoted package name becomes its replacement between the same quotes, and rule 2 does not touch rule 1's output |
| BuildPreset.PackageImportRewritten | build.preset.ts:13-29 | in a chunk, a quoted `@lowcode-yunti/<pkg>` becomes `"../"` repeated depth plus one times, then `<pkg>/index`, between the same quotes |
| BuildPreset.AliasSkippedByRule1 | build.preset.ts:13 | rule 1 copies a quoted `@/<p>` unchanged |
| BuildPreset.AliasRewritten | build.preset.ts:31-48 | under any replacers, a quoted `@/<p>` becomes rule 2's replacement of `<p>` between the same quotes |
| BuildPreset.AliasImportRewritten | build.preset.ts:32-48 | in a chunk, a quoted `@/<p>` becomes the alias target of `<p>` between the same quotes |
| BuildPreset.NoMatchAtForeign | build.preset.ts:13 | no match starts at the quote of a name a rule does not rewrite |
| BuildPreset.ForeignKept | build.preset.ts:13-48 | under any replacers, a quoted name neither rule rewrites is kept as it is |
| BuildPreset.ForeignImportKept | build.preset.ts:13-48 | in a chunk, any other quoted specifier is kept as it is |
| BuildPreset.SubpathIsForeign | build.preset.ts:13 | a package subpath such as `@lowcode-yunti/common/axios` is rewritten by neither rule |
| BuildPreset.IndexChunksLikeOthers | build.preset.ts:52-85 | a chunk whose name starts with `index` is rewritten like any other chunk of its directory |
| BuildPreset.DotNamedAliasUnprefixed | build.preset.ts:43-45 | at the root, `@/.env` becomes `.env`, with no `./` in front |
| BuildPreset.OutDirShape | build.preset.ts:109-111 | the directory is the name under `../../dist`, with `/<other>` appended exactly when `other` is non-empty |
| BuildPreset.OutDirSegments | build.preset.ts:110-111 | for plain names its segments are `..`, `..`, `dist`, the name and, when given, `other` |

## Left out

- Transport and I/O: `axios.create`, registering interceptors, the fetch adapter, the `AbortController` itself (its signal is a parameter of `AxiosConfig.SseRequest`), `TextDecoder` and the stream reader. Chunks are already-decoded text, and a replay (`instance(config)`) or rejection is a recorded action.
- The request interceptor and the success half of the response interceptor: they only forward to the caller's `onRequestSuccess`, `onRequestError` and `onResponseSuccess`, which are code outside the model.
- `createSSEConnectionWithEventSource`: a thin wrapper over the browser's `EventSource`. Unlike the modelled connection, its `close()` fires onClose on every call.
- The token storage helpers `getLocalStorageToken`, `setLocalStorageToken` and `removeLocalStorageToken`: thin wrappers over `localStorage`.
- The DOM helpers `addClass`, `removeClass` and `createElement`, the breadcrumb's markup and the width measurement itself: widths and the container width are inputs.
- Real asynchrony and timing: stream and refresh events are taken one at a time, in any order the caller chooses.
- Caller callbacks are taken not to throw. An `onRefreshTokenFailed` that throws would be called a second time from the `catch` block.
- SseConnection.StepOn: calling `close()` from inside an onMessage callback is not modelled. All events of a chunk are delivered before the next signal.
- Floating point: numbers are integers. `parseInt`'s -0 is 0, and precision beyond 2^53 is not modelled.
- JsValue.DeepClone: the clone's prototype is not part of a value. When the dropped own `__proto__` property holds an object or null, the source's clone takes it as its prototype and inherits its properties; the model only drops the key.
- JsValue.JsDeepClone: a throw is `None`; which TypeError it is, and which of several offending objects raises it, are not modelled. No value here is a function, so an own `hasOwnProperty` always throws; a callable one would be called instead.
- JsValue.DeepClone: object keys are own enumerable string keys only. Non-enumerable and symbol properties, prototypes other than `Object.prototype` and none, class instances, cycles and sparse arrays are left out.
- Profile.Spread: spreading an array or a string into the profile contributes nothing here; in JavaScript it would copy their indices.
- Format.TsLookup: `args` are the texts `String(arg)` would give, or `undefined`. `String()` of a non-string argument is outside the model. `Number()` of a digit string longer than 2^53 loses precision, which is not modelled.
- Node's `path` module is modelled from its documented POSIX behaviour (`normalize`, `join`, `relative`); it is not part of this repository. `path.sep` is `/`, so the `.split(path.sep).join("/")` step is the identity. A Windows separator is not modelled.
- BuildPreset.RenderChunk: a chunk's file name is given as its directory segments and base name, already normalised. `path.relative` resolves both paths against the working directory, which cancels out.
- BuildPreset.PackageTargetPlain: stated for a plain package name. `[^/'"]+` also captures `.` and `..`, which are not npm package names; `path.join(relativeToRoot, "..", pkgName, "index")` folds them into the directory walk.
- BuildPreset.AliasTargetPlain: stated for aliased paths made of plain segments (no `.`, `..` or empty segment).
- The `index` clean-up step of `renderChunk` is commented out in the source, so index chunks get nothing more.
- `commonExternals`, `hooks` and `getSrcPath`: constants, plugin registration and a URL built from the module's location.
- Breadcrumb.Fit: measured widths are stored by visible position but read by item index in the source; the model takes the widths as given per item. An item missing a width behaves like JavaScript's `undefined`: no sum with it fits. Sorting the visible items by `items.indexOf` is modelled as index order. That holds when no item object occurs twice; with the same object twice, `indexOf` finds the first occurrence for both, and the source's order differs.
- Breadcrumb.FitVisibleOrder: stated for items with distinct keys, which rules out the same object occurring twice.
- Breadcrumb.FitHidden: stated for items with distinct keys. With repeated keys, `findIndex` removes the first hidden item with that key, which need not be the one that became visible.
