# Motion detection add-on: a Dafny model of its core

This project models the logic at the centre of the motion detection add-on for
Home Assistant. The add-on reads an RTSP feed, finds motion regions, and reports
them to Home Assistant as a `binary_sensor` or a `sensor` entity. It also serves
a small web UI. The model covers these parts:

- **Command line and environment** (`ProgramOptions`). The option table, the
  mapping from environment variables to options, and the rule that the command
  line wins over the environment, which wins over the default. It also covers
  `std::stoi` and `boost::lexical_cast<int>` on option text, the detection-size
  rule (percentage or pixel count), and `CanSetupHass`.
- **Home Assistant entity state** (`HassCommon`, `HassState`, `Json`,
  `RectJson`).
  - The states path, chosen by whether the host is the supervisor.
  - The kind of entity, read from its id prefix.
  - The state text and attributes derived from the regions of interest.
  - How the GET and POST responses move the "current" and "next" state
    documents, with nlohmann JSON's `operator[]`, `push_back` and `at` as
    they behave on objects, nulls and missing keys.
  - The path, the dispatch on the id prefix and the derived state and
    attributes are the same in `src/Callback/BaseHassHandler.cxx` and in
    its `home_assistant` copy, `src/HomeAssistant/BaseHassHandler.cxx`
    (lines 19-25, 28-38 and 40-72). The `HassCommon` members model both.
- **The asynchronous handler** (`AsyncHass`, `Debouncer`, `Scheduler`).
  - Each request's context is stored under a counter. In the source the
    counter is one file-level static shared by every handler in the process;
    the model threads it through one handler's state, so two handlers
    issuing requests in turn are not modelled. The as-written effects in
    Findings hold whenever no other handler issues a request in between.
  - A completion is matched back to its context by its private number.
  - After each POST, a debounce task on the live555 scheduler blocks further
    posts until it fires.
  - The curl timer and socket callbacks, and the translation of socket
    conditions into `CURL_CSELECT_*` bits.
- **The legacy threaded handler** (`LegacyHass`). It creates the handler from
  the entity id, loads the initial state, has a 30-second warm-up, and posts
  from the updater thread when the debounce time has passed.
- **Utilities.**
  - `NoCaseCmp` (`Tools`).
  - The curl read and write buffer callbacks (`BufferOps`).
  - The event registry (`EventRegistry`).
  - The restart watcher and its exponential back-off (`RestartWatcher`).
  - The decoder's error message and its frame buffer with the Annex B start
    code (`Decoder`).
- **The web UI scripts.**
  - The saved-image gallery (`Gallery`): reading `page` and `imgsPerPage`
    through `Number(...) || default`, collecting the `.jpg` links, sorting
    and reversing them, page slicing with `Array.prototype.slice`, the page
    navigation links and the image elements.
  - The feed selector (`FeedSelector`).
  - The log console (`LogConsole`).
  - The JavaScript semantics these scripts rely on: `URLSearchParams`
    (`SearchParams`), `ToNumber` (`JsNumber`) and the default
    `Array.prototype.sort` (`StableSort`).

`Numerals`, `Text` and `Wrappers` are shared helpers. `Numerals` holds decimal
and hexadecimal text with proved round trips, `Text` holds prefix, suffix,
split and join, and `Wrappers` holds `Option` and `Result`.

All state is immutable. Each operation is a function from the old state to the
new one. Clocks, the network, curl transfers and scheduler timing become
parameters: the time now, the response code, the parsed body, the callbacks
that are still alive, and the order in which a hash map is iterated.

## Model

| member | source | states |
|---|---|---|
| Tools.ToLower | src/Util/Tools.cxx:16-17 | `tolower` in the C locale: an upper-case ASCII letter maps to its lower-case letter (code + 32); every other character is unchanged |
| Tools.NoCaseCmp | src/Util/Tools.cxx:9-23 | the loop's answer is true exactly when both strings are present, have equal length and agree position by position after `tolower` |
| Tools.NullNeverEqual | src/Util/Tools.cxx:10-22 | a null on either side compares unequal to anything, including another null |
| Tools.DifferentLengthsDiffer | src/Util/Tools.cxx:13 | strings of different lengths never compare equal |
| Tools.DifferingPositionDiffers | src/Util/Tools.cxx:14-20 | one position whose lower-cased characters differ makes the strings unequal |
| Tools.Reflexive | src/Util/Tools.cxx:9-23 | every present string equals itself ignoring case |
| Tools.Symmetric | src/Util/Tools.cxx:9-23 | the comparison does not depend on argument order |
| Tools.Transitive | src/Util/Tools.cxx:9-23 | equality ignoring case is transitive |
| Tools.TestVectors | tests/TestUtil.cxx:5-13 | the eight expectations of the unit test hold for the model |
| BufferOps.WrapSize | src/Util/BufferOperations.cxx:17 | `size_t` arithmetic is taken modulo 2^64; a value already in range is unchanged |
| BufferOps.BlockSize | src/Util/BufferOperations.cxx:17 | `sz * nmemb` is the true product whenever it fits in 64 bits |
| BufferOps.FillBufferCallback | src/Util/BufferOperations.cxx:13-22 | without user data nothing is written and 0 is returned; otherwise exactly `sz * nmemb` bytes of `contents` are appended, the old buffer is kept as a prefix, and that count is returned |
| BufferOps.FillAllConcatenates | src/Util/BufferOperations.cxx:13-22 | receiving a body in any number of blocks leaves the old buffer followed by the blocks in order |
| BufferOps.SendBufferCallback | src/Util/BufferOperations.cxx:24-38 | without user data nothing is copied; otherwise `min(sz * nmemb, size)` bytes from the front of the payload are copied, the rest of `dest` is untouched, and the payload keeps only what was not copied |
| BufferOps.SendSplits | src/Util/BufferOperations.cxx:31-35 | what one call copies, followed by what stays in the payload, is the payload before the call |
| BufferOps.SendAll | src/Util/BufferOperations.cxx:24-38 | repeated reads with a fixed capacity deliver the whole payload in order, in full-size chunks except the last; the final call copies 0 |
| RectJson.WrapInt32 | include/HomeAssistant/Json.h:17 | `get<int>` narrows to 32 bits: the result is congruent modulo 2^32 and equal when the value already fits |
| RectJson.GetInt | include/HomeAssistant/Json.h:17-20 | `get<int>` succeeds exactly on numbers and booleans |
| RectJson.AtInt | include/HomeAssistant/Json.h:17 | `at(key)` succeeds only on an object holding the key; a missing key on an object is `out_of_range` |
| RectJson.RectToJson | include/HomeAssistant/Json.h:9-14 | `to_json` gives an object with exactly the keys `x`, `y`, `width`, `height`, holding the rectangle's fields |
| RectJson.RectFromJson | include/HomeAssistant/Json.h:16-21 | `from_json` succeeds only on objects holding all four keys, and fails on any object missing one |
| RectJson.RectRoundTrip | include/HomeAssistant/Json.h:9-21 | `from_json(to_json(r))` gives back `r` |
| RectJson.RectFromJsonIgnoresExtraKeys | include/HomeAssistant/Json.h:16-21 | the result depends only on the four keys; other members play no part |
| Json.Set | src/Callback/BaseHassHandler.cxx:43-44 | `d[key] = v` turns a null document into an object, sets the key to `v`, and keeps every other member |
| Json.PushAllOntoArray | src/Callback/BaseHassHandler.cxx:62 | pushing values onto an existing array member appends them in order |
| Json.PushAllFresh | src/Callback/BaseHassHandler.cxx:62 | the first `push_back` onto a missing member creates an array holding the pushed values; with no values the document is unchanged |
| HassCommon.KindOf | src/Callback/BaseHassHandler.cxx:31-38 | the entity is a binary sensor exactly when its id starts with `binary_sensor.`, a sensor exactly when it starts with `sensor.`, and unsupported otherwise |
| HassCommon.StatesPath | src/Callback/BaseHassHandler.cxx:20-26 | the path is under `/core/api/states/` when the host is `supervisor` and under `/api/states/` otherwise, and ends with the entity id |
| HassCommon.StatesPathNamesEntity | src/HomeAssistant/BaseHassHandler.cxx:19-25 | for an id without `/`, the last path segment is exactly the entity id (the `home_assistant` copy of the handler builds the path as the callback one does) |
| HassCommon.BinaryState | src/Callback/BaseHassHandler.cxx:52-56 | `unknown` exactly when no regions were given, `off` exactly for an empty list, `on` exactly for a non-empty one |
| HassCommon.SensorState | src/Callback/BaseHassHandler.cxx:69-73 | `unknown` exactly when no regions were given; otherwise decimal text that reads back as the region count |
| HassCommon.RoiJsons | src/Callback/BaseHassHandler.cxx:59-63 | one JSON value per region, in order, each reading back as that region |
| HassCommon.BinaryAttributes | src/Callback/BaseHassHandler.cxx:57-63 | `device_class` is `motion`; the `rois` array is present exactly when there is at least one region, and it holds the regions in order |
| HassCommon.SensorAttributes | src/Callback/BaseHassHandler.cxx:74-79 | the loop runs over an empty list, so the attributes stay the null value, not an empty object |
| HassCommon.Derive | src/Callback/BaseHassHandler.cxx:29-81 | an unsupported id throws with that id; a binary sensor gets its state and attributes; a sensor gets its count and null attributes |
| HassCommon.BinaryRoisReadBack | src/HomeAssistant/BaseHassHandler.cxx:40-56 | for a non-empty region list, the posted `rois` array reads back as exactly those regions and the state is `on` (the same in both copies of the handler) |
| HassCommon.SensorNeverListsRois | src/HomeAssistant/BaseHassHandler.cxx:58-72 | a sensor's attributes never carry `rois`: in both copies of the handler the loop runs over an empty list |
| HassState.NewHandler | src/Callback/BaseHassHandler.cxx:16-27 | the constructor sets the states path for the host and the entity; both state documents start null |
| HassState.UpdateStateInternal | src/Callback/BaseHassHandler.cxx:41-48 | the next state gets `state` and `attributes`; a non-empty friendly name is added to the attributes; other members stay; the current state is untouched |
| HassState.IsStateBecomingUnknown | src/Callback/BaseHassHandler.cxx:83-85 | a null next state is a type error; the read succeeds exactly when `state` is present, and is true exactly when `state` is `unknown` |
| HassState.Adopt | src/Callback/BaseHassHandler.cxx:106-109 | the fetched `state`, `entity_id` and `attributes` are copied and nothing else changes; a body that is not an object, or lacks one of the three, fails |
| HassState.HandleGetResponse | src/Callback/BaseHassHandler.cxx:98-137 | 200/201 adopts the fetched entity; 404 sets `unknown`, the entity id and null attributes; any other code fails and changes nothing; on success next equals current |
| HassState.GetStringMember | src/Callback/BaseHassHandler.cxx:165-166 | `operator[]` on a missing key inserts null before `get<string>` fails; it succeeds exactly on a string member |
| HassState.HandlePostResponse | src/Callback/BaseHassHandler.cxx:155-183 | success needs 200/201 and string `entity_id` and `state` in the next state; only then does current become next; any other code fails with that code |
| HassState.PostAfterNotFoundSucceeds | src/Callback/BaseHassHandler.cxx:155-168 | after a 404 GET and an update, a successful POST commits the next state |
| HassState.PostBeforeGetFails | src/Callback/BaseHassHandler.cxx:161-167 | a POST completing before any GET finds no `entity_id` and fails with a type error, leaving the current state null |
| HassState.NullPayloadBecomesUnknown | src/Callback/BaseHassHandler.cxx:83-85 | for a binary sensor, a null region payload makes the state become `unknown` |
| AsyncHass.NewAsync | src/Callback/AsyncHassHandler.cxx:24-28 | a new handler has no contexts, allows updates, and satisfies the handler invariant |
| AsyncHass.IssueRequestAsWritten | src/Callback/AsyncHassHandler.cxx:59-64 | as written: the context is stored under the counter's old value but tagged with the new one |
| AsyncHass.IssueRequest | src/Callback/AsyncHassHandler.cxx:72-77 | corrected: the context is stored and tagged under the same fresh key; the key was unused, the map grows by one, and the invariant is kept |
| AsyncHass.Register | src/Callback/AsyncHassHandler.cxx:37-49 | registering issues exactly one GET context under a fresh key and keeps the invariant |
| AsyncHass.RegisterAsWritten | src/Callback/AsyncHassHandler.cxx:71-78 | as written, the initial GET's context has a private number one greater than its key |
| AsyncHass.UpdateStateImpl | src/Callback/AsyncHassHandler.cxx:51-69 | corrected numbering (see Findings): the next state is updated; a POST context, tagged with its own key, is issued and a debounce task scheduled exactly when updates are allowed and the state changes; otherwise nothing else moves |
| AsyncHass.UpdateStateImplAsWritten | src/Callback/AsyncHassHandler.cxx:51-69 | as written: the POST context is stored under the counter's old value and tagged with the new one; without a post nothing but the next state moves |
| AsyncHass.UpdateAsWrittenLosesPost | src/Callback/AsyncHassHandler.cxx:59-77 | as written, a fresh handler's first POST is stored under 1 and tagged 2, so its completion finds no context and context 1 stays |
| AsyncHass.OnRois | src/Callback/BaseHassHandler.cxx:29-39 | an unsupported entity fails; otherwise the handler stays well formed |
| AsyncHass.OnDone | src/Callback/AsyncHassHandler.cxx:80-119 | a completion whose private number names no context changes nothing; otherwise the context is released and the GET or POST handler runs by method name, ignoring case |
| AsyncHass.OnDoneKeepsWellFormed | src/Callback/AsyncHassHandler.cxx:108-110 | completions keep the handler invariant |
| AsyncHass.RegisterThenDone | src/Callback/AsyncHassHandler.cxx:88-111 | corrected: the initial GET's completion reaches the GET handler and releases its context |
| AsyncHass.RegisterAsWrittenLosesResponse | src/Callback/AsyncHassHandler.cxx:72-77 | as written: a 200 response to the initial GET is lost and its context is never released |
| AsyncHass.AsWrittenCompletionHitsNextRequest | src/Callback/AsyncHassHandler.cxx:59-64 | as written: the GET's completion releases the following POST's context instead of its own |
| AsyncHass.DebounceSuppressesSecondPost | src/Callback/AsyncHassHandler.cxx:56-68 | two updates in a row issue at most one POST |
| AsyncHass.FireTask | src/Callback/AsyncDebouncer.cxx:27-34 | firing a task removes it and keeps the invariant; firing the debounce task allows updates again |
| AsyncHass.TimerDelay | src/Callback/AsyncHassHandler.cxx:166-171 | the delay is `max(ms, 1) * 1000` microseconds up to 2147483 ms; beyond, the `int` product wraps modulo 2^32 |
| AsyncHass.LongTimeoutWraps | src/Callback/AsyncHassHandler.cxx:170-171 | 2147484 ms and 3000000 ms give negative delays |
| AsyncHass.TimeoutCallback | src/Callback/AsyncHassHandler.cxx:159-176 | a negative timeout unschedules the timer; otherwise a new timer is added under a fresh token with the wrapped delay, clamped at 0 by the scheduler, which is `max(ms, 1) * 1000` microseconds up to 2147483 ms; the previous timer is not cancelled; without a handler nothing happens |
| AsyncHass.PollConditions | src/Callback/AsyncHassHandler.cxx:143-145 | IN watches readable, OUT watches writable, INOUT watches both |
| AsyncHass.SelectBits | src/Callback/AsyncHassHandler.cxx:181-187 | `CURL_CSELECT_IN` is set exactly when readable, `CURL_CSELECT_OUT` exactly when writable, and no other bit is set |
| AsyncHass.PollRoundTrip | src/Callback/AsyncHassHandler.cxx:178-187 | the conditions registered for a poll action translate back into that action's select bits |
| AsyncHass.SocketCallback | src/Callback/AsyncHassHandler.cxx:121-157 | poll actions watch the socket and create its context if missing; REMOVE forgets both; other sockets are untouched; a dead handler changes nothing |
| Debouncer.Debounce | src/Callback/AsyncDebouncer.cxx:10-25 | afterwards updates are blocked by a pending release task with the clamped delay; from the allowed state one task is added; the old task is gone; other tasks are untouched |
| Debouncer.DebounceUpdateProc | src/Callback/AsyncDebouncer.cxx:27-34 | with a debouncer, updates become allowed and the token is kept; without one nothing happens |
| Debouncer.OnTaskFired | src/Callback/AsyncDebouncer.cxx:27-34 | firing a task removes exactly that task |
| Debouncer.InitialConsistent | include/Callback/AsyncDebouncer.h:32-33 | a new debouncer allows updates and is consistent with any scheduler |
| Debouncer.FireKeepsConsistent | src/Callback/AsyncDebouncer.cxx:27-34 | firing keeps the debouncer consistent; firing its own task re-allows updates |
| Debouncer.DebounceTwiceOneTask | src/Callback/AsyncDebouncer.cxx:17-24 | debouncing twice leaves one release task, with the second delay |
| Scheduler.Schedule | src/Callback/AsyncDebouncer.cxx:21-22 | a task is queued under a fresh token with a clamped delay, and nothing else changes |
| Scheduler.Unschedule | src/Callback/AsyncDebouncer.cxx:13 | exactly the token's task is removed |
| Scheduler.Reschedule | src/Callback/AsyncDebouncer.cxx:18-19 | the old token's task is gone, a task for the procedure is pending under a fresh token, and other tasks are untouched |
| Scheduler.Fire | src/Callback/AsyncDebouncer.cxx:27-33 | a fired task is no longer pending |
| RestartWatcher.LiveIndices | include/VideoSource/RestartWatcher.h:23-29 | the callbacks notified are exactly those still alive, in order |
| RestartWatcher.CheckAndRestart | include/VideoSource/RestartWatcher.h:13-48 | an inactive source notifies the live callbacks, counts one attempt and the null payloads, and doubles the interval up to the maximum; otherwise the interval resets to the minimum; a check is scheduled exactly when the scheduler is alive |
| RestartWatcher.NewWatcher | include/VideoSource/RestartWatcher.h:50-57 | the counters start at 0, the interval starts at the minimum, and the first check is scheduled exactly when both source and scheduler are given |
| RestartWatcher.CheckKeepsBounds | include/VideoSource/RestartWatcher.h:32-41 | the interval stays between the minimum and the maximum |
| RestartWatcher.CheckCountersMonotone | include/VideoSource/RestartWatcher.h:27-31 | the counters never decrease |
| RestartWatcher.BackoffClosedForm | include/VideoSource/RestartWatcher.h:32-33 | after k failed checks from the minimum, the interval is `min(min * 2^k, max)` |
| RestartWatcher.BackoffCounters | include/VideoSource/RestartWatcher.h:23-31 | after k failed checks, the attempts grew by k and the null payloads by k times the live callbacks |
| RestartWatcher.RecoveryResets | include/VideoSource/RestartWatcher.h:39-41 | however long the back-off, one good check restores the minimum interval |
| EventRegistry.Subscribe | include/Util/EventHandler.h:15-20 | the callback is stored under the counter's value, which is returned; the counter advances; other entries are kept |
| EventRegistry.Unsubscribe | include/Util/EventHandler.h:21 | unsubscribing leaves every callback registered |
| EventRegistry.SubscribeFresh | include/Util/EventHandler.h:15-20 | under the counter invariant, subscribing never overwrites and grows the registry by one |
| EventRegistry.SubscribeAllIds | include/Util/EventHandler.h:15-20 | n subscriptions get consecutive fresh ids, each mapping to its callback, keeping the old ones |
| EventRegistry.OnEvent | include/Util/EventHandler.h:24-29 | every registered callback is invoked exactly once, with the same payload |
| Decoder.NamesInIff | src/VideoSource/Live555.cxx:21-53 | a table's name is listed exactly when its bit is set |
| Decoder.FlagNameIff | src/VideoSource/Live555.cxx:21-53 | each decoding-state flag's name is listed exactly when its bit is set |
| Decoder.FlagsDistinct | src/VideoSource/Live555.cxx:22-52 | the eleven flag names are distinct |
| Decoder.MakeDecoderError | src/VideoSource/Live555.cxx:17-61 | the message starts with `Errors decoding stream (` |
| Decoder.NoFlagsNoNames | src/VideoSource/Live555.cxx:54-60 | a state with none of the flag bits gives the hex value and an empty list |
| Decoder.MaskUnused | src/VideoSource/Live555.cxx:17-18 | the error mask argument does not affect the message |
| Decoder.HexOfInt | src/VideoSource/Live555.cxx:59 | `{:X}` writes non-empty text without `)` |
| Decoder.HexOfIntRoundTrip | src/VideoSource/Live555.cxx:59 | `{:X}` text reads back as the integer, sign included |
| Decoder.FlagNamesCommaFree | src/VideoSource/Live555.cxx:22-52 | every listed name is non-empty and has no comma |
| Decoder.DecoderErrorRoundTrip | src/VideoSource/Live555.cxx:54-60 | the message can be parsed back into the state (as `int`) and exactly its flag names, in order |
| Decoder.ShouldWarnIffNamed | src/VideoSource/Live555.cxx:236-240 | a warning is logged exactly when `BitstreamError`, `NoParamSets` or `DepLayerLost` is among the names |
| Decoder.NewSink | src/VideoSource/Live555.cxx:184-190 | the sink exists exactly when the buffer has at least 3 bytes, and it starts with `00 00 01` |
| Decoder.ReceiveFrame | src/VideoSource/Live555.cxx:268-269 | a frame is written after the start code up to the buffer's end; kept plus truncated bytes give the frame length; the start code stays |
| Decoder.DecoderSeesAnnexBUnit | src/VideoSource/Live555.cxx:233-234 | the decoder receives the start code followed by the kept frame bytes |
| LegacyHass.Create | src/HomeAssistant/HassHandler.cxx:16-27 | a binary or plain sensor handler is created by id prefix, otherwise an error naming the id |
| LegacyHass.CreatePathIgnoresSupervisor | src/HomeAssistant/HassHandler.cxx:33 | the legacy handler always uses `/api/states/`, even for the supervisor |
| LegacyHass.Start | src/HomeAssistant/HassHandler.cxx:48-54 | a failed transfer leaves the state as it was; a successful one adopts the fetched entity or fails; the last update is set 30 seconds ahead |
| LegacyHass.LegacyBinaryAttributes | src/HomeAssistant/HassHandler.cxx:121-126 | no regions leaves the attributes null; otherwise they are `{rois: [...]}` |
| LegacyHass.LegacyDerive | src/HomeAssistant/HassHandler.cxx:113-144 | binary sensors get on/off/unknown; sensors get the count and null attributes |
| LegacyHass.UpdateState | src/HomeAssistant/HassHandler.cxx:92-97 | the state is written; the attributes go under `attributes.rois`, which fails exactly when `attributes` holds a non-object |
| LegacyHass.BinaryRoisNested | src/HomeAssistant/HassHandler.cxx:95 | the regions end up nested as `attributes.rois.rois`, with no `device_class` |
| LegacyHass.Tick | src/HomeAssistant/HassHandler.cxx:68-88 | when a change is due, current becomes next whatever the transfer did, and the time is recorded; otherwise nothing changes |
| LegacyHass.NoPostDuringWarmup | src/HomeAssistant/HassHandler.cxx:66-74 | no post happens before the warm-up and the debounce have passed |
| LegacyHass.TickSettles | src/HomeAssistant/HassHandler.cxx:71-86 | after a post nothing is due until the state changes again |
| ProgramOptions.EnvTableBijective | src/Util/ProgramOptions.cxx:96-108 | the environment table maps the twelve variables one-to-one onto the twelve options |
| ProgramOptions.ParseEnvironment | src/Util/ProgramOptions.cxx:94-111 | an option comes from the environment exactly when its variable is set, with that variable's value |
| ProgramOptions.ParseEnvironmentMapsVariables | src/Util/ProgramOptions.cxx:109-110 | a mapped variable supplies its option; an unmapped one supplies nothing |
| ProgramOptions.Store | src/Util/ProgramOptions.cxx:88-112 | `store` never overwrites: values already present win, and new ones are added |
| ProgramOptions.StoiReads | src/Util/ProgramOptions.cxx:144 | `stoi` fails with `invalid_argument` exactly when no digit follows the spaces and sign; otherwise it gives the signed digit run, or `out_of_range` beyond `int` |
| ProgramOptions.LexicalIntRoundTrip | src/Util/ProgramOptions.cxx:66 | the typed `int` option reads back every `int` written in decimal |
| ProgramOptions.StoiExtendsLexicalInt | src/Util/ProgramOptions.cxx:144 | whatever the typed `int` parser accepts, `stoi` reads as the same value |
| ProgramOptions.StoiReadsIntText | src/Util/ProgramOptions.cxx:144 | `stoi` reads a decimal `int` followed by a non-digit as that `int` |
| ProgramOptions.StoiSkipsSpaces | src/Util/ProgramOptions.cxx:144 | leading white space does not change what `stoi` gives |
| ProgramOptions.ClassifySize | src/Util/ProgramOptions.cxx:139-145 | a percentage exactly when the text ends in `%` and `stod` finds a number before it; `invalid_argument` when it finds none; otherwise exactly `stoi`'s result, as a pixel count or its error |
| ProgramOptions.Settings | src/Util/ProgramOptions.cxx:114-154 | a parsed result takes every option, including user name, password, friendly name, detection size and debounce, from the variables map or its default (an empty size keeps the default size and debounce); bad `int` text escapes; `help` and `version` end it; a missing source URL, a URL `boost::url` cannot parse, and a size `stod` or `stoi` throws on are each rejected under exactly their conditions |
| ProgramOptions.Precedence | src/Util/ProgramOptions.cxx:88-112 | the command line wins over the environment, which wins over the default |
| ProgramOptions.CanSetupHassIff | src/Util/ProgramOptions.cxx:157-159 | Home Assistant can be set up exactly when URL, entity id and token are all non-empty |
| ProgramOptions.HassFromEnvironment | src/Util/ProgramOptions.cxx:101-103 | with `HASS_URL`, `HASS_ENTITY_ID` and `HASS_TOKEN` set and no command-line value, setup depends only on them |
| ProgramOptions.PrefixedNamesIgnored | tests/TestProgramOptions.cxx:54-74 | `MODET_`-prefixed variables, the ones the test sets, map to no option |
| ProgramOptions.PercentSize | src/Util/ProgramOptions.cxx:139-141 | `N%`, where `stod` finds a number in `N`, gives a percentage of `N`, and the debounce is still read |
| ProgramOptions.PercentWithoutNumberRejected | src/Util/ProgramOptions.cxx:139-154 | `N%` where `stod` finds no number in `N` is rejected with `invalid_argument` |
| ProgramOptions.PercentExamples | src/Util/ProgramOptions.cxx:141 | `abc%` is rejected; ` -.5%` and `INF%` are percentages |
| ProgramOptions.ClassifyIntText | src/Util/ProgramOptions.cxx:144 | decimal `int` text gives that many pixels |
| ProgramOptions.PixelSize | src/Util/ProgramOptions.cxx:142-145 | a decimal `int` detection size gives that many pixels |
| ProgramOptions.NonNumericSizeRejected | src/Util/ProgramOptions.cxx:144 | a size with no leading number is rejected with `invalid_argument` |
| ProgramOptions.PixelSizeOutOfRange | src/Util/ProgramOptions.cxx:142-154 | a pixel count beyond `int` makes `stoi` throw `out_of_range`, and the size is rejected |
| ProgramOptions.EmptySizeSkipsDebounce | src/Util/ProgramOptions.cxx:136-138 | an empty size returns early: the size and the debounce keep their defaults |
| ProgramOptions.DebounceSeconds | src/Util/ProgramOptions.cxx:147-149 | the debounce option gives that many seconds |
| ProgramOptions.Defaults | include/Util/ProgramOptions.h:24-28 | with only a source URL: host `0.0.0.0`, port 32834, size 5%, debounce 30 s, no Home Assistant |
| SearchParams.Get | src/Gui/public/load_feed.js:11 | `get` finds a value exactly when the name occurs, and the value is that of the first pair with the name |
| SearchParams.SetParamFacts | src/Gui/public/load_feed.js:4 | after `set`, the name reads the new value and occurs once; other names read as before; other pairs keep their order |
| SearchParams.SetParamIdempotent | src/Gui/public/load_feed.js:4 | setting the same value twice is the same as setting it once |
| FeedSelector.LoadFeed | src/Gui/public/load_feed.js:1-6 | only the query changes |
| FeedSelector.LoadFeedSelects | src/Gui/public/load_feed.js:1-6 | the new URL carries exactly the chosen feed, and other parameters are unchanged |
| FeedSelector.LastMatch | src/Gui/public/load_feed.js:24-32 | the result is the last index equal to the parameter, or none when no feed matches |
| FeedSelector.PopulateSelector | src/Gui/public/load_feed.js:24-32 | one option per feed is appended in order, old options are kept, and the selected index is the last match plus one |
| FeedSelector.OnLoad | src/Gui/public/load_feed.js:8-34 | a bad response or bad JSON fails before any option is added; otherwise the selector is filled as above |
| FeedSelector.NoMatchKeepsSelection | src/Gui/public/load_feed.js:29-31 | with no parameter or no match, the selection is untouched |
| FeedSelector.LastDuplicateWins | src/Gui/public/load_feed.js:29-31 | among duplicate feeds, the last one is selected |
| LogConsole.Field | src/Gui/public/index.js:7-9 | a missing property reads as `undefined` |
| LogConsole.LogLine | src/Gui/public/index.js:6-9 | the line is a newline, then the timestamp, `[level]` and the payload |
| LogConsole.OnMessage | src/Gui/public/index.js:3-11 | malformed JSON changes nothing; `null` adds only the newline; otherwise the whole line is added and the view scrolls to the bottom; the old text is always kept as a prefix |
| LogConsole.ReplayAppends | src/Gui/public/index.js:3-11 | after any run of messages, the log is the old text followed by each message's text in arrival order |
| LogConsole.OnMessageAppends | src/Gui/public/index.js:3-11 | one message adds exactly its own text |
| LogConsole.ReplayKeepsPrefix | src/Gui/public/index.js:6-9 | the log is append-only |
| LogConsole.LogLineRoundTrip | src/Gui/public/index.js:6-9 | a line determines its fields when the timestamp has no `[` and the level no `]` |
| JsNumber.StringToNumber | src/Gui/public/saved_images.js:7-8 | blank text is 0 |
| JsNumber.ParamToNumber | src/Gui/public/saved_images.js:7-8 | a missing parameter is `Number(null)`, which is 0 |
| JsNumber.NumberOr | src/Gui/public/saved_images.js:7-8 | `x \|\| d` gives `d` or a non-zero number; it is never 0 when `d` is not 0 |
| JsNumber.StringToNumberIntText | src/Gui/public/saved_images.js:7-8 | decimal integer text reads back as that integer |
| JsNumber.NumberOrCases | src/Gui/public/saved_images.js:7-8 | missing, blank or zero gives the fallback; any other integer, with white space around it, is kept |
| JsNumber.NotANumberFallsBack | src/Gui/public/saved_images.js:7-8 | text that is not a number gives the fallback |
| JsNumber.TrimPadded | src/Gui/public/saved_images.js:7-8 | white space at either end is ignored |
| StableSort.Insert | src/Gui/public/saved_images.js:41 | inserting keeps the sequence sorted, adds exactly the element, and places it after equal keys |
| StableSort.Sort | src/Gui/public/saved_images.js:41 | the result is sorted by string key and is a permutation of the input |
| StableSort.SortSortedIdentity | src/Gui/public/saved_images.js:41 | sorting already-sorted input changes nothing (stability) |
| StableSort.SortEqualKeysIdentity | src/Gui/public/saved_images.js:41 | elements whose keys are all equal keep their order |
| StableSort.Reverse | src/Gui/public/saved_images.js:41 | `reverse` puts element i at position n-1-i |
| StableSort.ReverseReverse | src/Gui/public/saved_images.js:41 | reversing twice restores the sequence |
| Gallery.ReadSettings | src/Gui/public/saved_images.js:7-8 | the page size is never 0 |
| Gallery.ReadSettingsSize | src/Gui/public/saved_images.js:7-8 | a missing or zero page size is 20, any other integer is kept, and the page is read as written |
| Gallery.CollectLinks | src/Gui/public/saved_images.js:21-31 | only anchors whose href ends in `.jpg` are kept, each with its source built from the href |
| Gallery.CollectLinksAppend | src/Gui/public/saved_images.js:24-31 | collecting distributes over concatenation, so document order is kept |
| Gallery.CollectLinksMember | src/Gui/public/saved_images.js:25-30 | an href is collected exactly when it is present and ends in `.jpg` |
| Gallery.ImageSource | src/Gui/public/saved_images.js:27 | the source is the saved-images directory followed by the file name, with no `/` in the name |
| Gallery.SortThenReverseIsReverse | src/Gui/public/saved_images.js:41 | every link converts to the same text, so `sort().reverse()` is plain reverse document order |
| Gallery.PageCount | src/Gui/public/saved_images.js:56 | `Math.ceil(n / size)`: for a positive size, the fewest pages that cover all links |
| Gallery.NoLinksNoPages | src/Gui/public/saved_images.js:56 | no links means no pages |
| Gallery.RelativeIndex | src/Gui/public/saved_images.js:44 | `slice`'s index is clamped into the sequence; a negative index counts back from the end, stopping at 0 |
| Gallery.JsSlice | src/Gui/public/saved_images.js:44 | a slice is never longer than the sequence; for non-negative bounds it is the clamped range, empty when the end is not after the start |
| Gallery.Visible | src/Gui/public/saved_images.js:43-45 | page ≤ 0 shows everything; page p shows links `(p-1)*size` up to `p*size`, clamped |
| Gallery.NegativeSizePages | src/Gui/public/saved_images.js:43-45 | a negative page size shows all but the last `-size` links on page 1 and nothing on later pages |
| Gallery.PastLastPageEmpty | src/Gui/public/saved_images.js:44 | a page beyond the page count shows nothing |
| Gallery.PagesUpToPrefix | src/Gui/public/saved_images.js:43-45 | pages 1 to k together are exactly the first `k*size` links, without gaps or overlaps |
| Gallery.PagesCoverAllLinks | src/Gui/public/saved_images.js:43-56 | the numbered pages together show every link exactly once, in order |
| Gallery.NumberedLinks | src/Gui/public/saved_images.js:76-90 | links 1 to the page count, in order, each marked current exactly when it is the page |
| Gallery.PageLinksShape | src/Gui/public/saved_images.js:55-108 | the previous link is present exactly when there are several pages and the page is not 1; the next link exactly when the page is not the last; the numbered links come between |
| Gallery.CurrentMarkedOnce | src/Gui/public/saved_images.js:76-90 | exactly one link is marked current when the page is in range, none otherwise |
| Gallery.NavigationMarks | src/Gui/public/saved_images.js:59-107 | for any page count, the navigation marks exactly one link current when the page is in range and none otherwise; the previous and next links are never marked |
| Gallery.PreviousFromPageZero | src/Gui/public/saved_images.js:59-62 | on the default page 0 with several pages, the previous link points to page -1 |
| Gallery.PageHrefRoundTrip | src/Gui/public/saved_images.js:62 | a navigation href reads back as its page and page size |
| Gallery.Images | src/Gui/public/saved_images.js:46-52 | one image per shown link, numbered from 1 in order |
| Gallery.ImageIdsDistinct | src/Gui/public/saved_images.js:50 | image ids are pairwise distinct |
| Gallery.TotalCount | src/Gui/public/saved_images.js:36-39 | the count is written exactly when there are links, as `(n)` |
| Gallery.Render | src/Gui/public/saved_images.js:10-53 | a bad response fails; both navigation lists are equal; the count shows exactly when some `.jpg` link exists; never more images than anchors |
| Gallery.RenderShowsPage | src/Gui/public/saved_images.js:41-52 | the images are the requested page of the reversed link list; page ≤ 0 shows all |
| Numerals.FormatNatRoundTrip | src/Gui/public/saved_images.js:62 | digit text without leading zeros reads back as the number in any base |
| Numerals.NatToString | src/Callback/BaseHassHandler.cxx:71 | `std::to_string` of a count reads back as that count |
| Numerals.IntToString | src/Gui/public/saved_images.js:62 | decimal text starts with `-` exactly for negatives and reads back as the integer |
| Numerals.IntToStringInjective | src/Gui/public/saved_images.js:50 | distinct integers give distinct text |
| Numerals.HexString | src/VideoSource/Live555.cxx:59 | hex digit text reads back as the number |
| Text.LastSegment | src/Gui/public/saved_images.js:27 | `split("/").pop()`: a suffix without the separator, preceded by it when shorter than the text |
| Text.SplitJoinCommaSpace | src/VideoSource/Live555.cxx:55-57 | comma-free names joined with `, ` split back into the same names |

## Left out

- I/O, threads, mutexes and condition variables are not modelled. The curl
  transfers, the live555 event loop's timing and the OpenH264 decoding itself
  are not modelled either. Response codes, bodies, the time now and which
  weak pointers are still alive are parameters.
- Logging is left out: the model keeps no log output. Where a log call's arguments read the state documents, their effect on the documents is modelled (see `HassState.HandlePostResponse`).
- `HassState.HandlePostResponse`: the two `get<std::string>()` calls that read `entity_id` and `state` are arguments of one log call, and C++ leaves their order unspecified. The model evaluates `entity_id` first. The order matters only when both members are missing: then only `entity_id` is inserted as null, where the other order would insert only `state`.
- Floating point is left out. A percentage detection size keeps its text
  (`std::stod` and the division by 100 are not modelled).
- `ProgramOptions.ClassifySize`: states the `%` split, whether `stod` finds a number, and the `stoi` outcome, not the value `stod` reads. `stod`'s `out_of_range`, for a number beyond the range of `double` such as `1e999`, is not modelled: such a percentage is accepted.
- `ProgramOptions.Settings`: which texts `boost::url` accepts is the parameter `urlParses`. The URI-reference grammar itself is not modelled.
- `JsNumber.StringToNumber`: covers only the integer forms of `StringToNumber` (decimal with sign, `0x`, `0o`, `0b`). A fractional, exponent or `Infinity` query value reads as `NaN`, where JavaScript would give a number. Integers above 2^53 are kept exactly, where a JavaScript Number rounds them to the nearest double. `Gallery.ReadSettings` inherits this.
- `StableSort.Sort`: states sortedness and permutation. Stability is stated only for input that is already sorted (`SortSortedIdentity`), which is the case the gallery reaches.
- `Decoder.NamesIn`: its own contract is only a length bound. Which names appear is stated by `Decoder.NamesInIff`.
- `Decoder.MakeDecoderError`: its own contract states only the prefix. The full content is `Decoder.DecoderErrorRoundTrip`.
- `EventRegistry.Subscribe`: the id counter is unbounded. The `int` overflow of the static counter after 2^31 subscriptions is not modelled.
- `EventRegistry.OnEvent`: the unordered map's iteration order is a parameter.
- `FeedSelector.PopulateSelector`: the selected index is the value written. The DOM clamps an index past the options, and that is not modelled. `==` between a feed and the parameter is string equality, because the feed list is taken to hold strings.
- `LogConsole.OnMessage`: `innerHTML +=` is taken as appending text. HTML parsing and entity escaping are not modelled.
- DOM parsing of the saved-images directory listing is not modelled: the anchors' resolved `href`s are the input. URL parsing, resolution and serialisation are not modelled either: URLs are their query pairs plus the rest as text.
- Printing help or the version and exiting are modelled only as the outcomes `ShowHelp` and `ShowVersion`.
- Repeated options on the command line are not modelled: the command line is one value per option.
- `ProgramOptions.Settings`: the `source-token` option is read but never assigned to `token`. The model keeps that, so `token` is always empty.
- The environment test sets `MODET_HASS_URL` and friends, but the mapper knows only the unprefixed names. `ProgramOptions.PrefixedNamesIgnored` states what the code does with those names. The test also calls `ParseOptions` and reads `sourceUrl`; neither exists in the options class.
- The behaviour of nlohmann JSON's const `operator[]` on a missing key is undefined. The model reads it as the `out_of_range` error `at` would give, and `HassState.Adopt` then fails as a whole with nothing written. Under a reading where the read throws, the members copied before the missing one (in the order `state`, `entity_id`, `attributes`) would already be in the current state.
- In `HandlePostResponse`, a null content type used as a `string_view` is undefined. That path is taken as a plain failure with the response code.
- The `CURLOPT_PRIVATE` value is the `size_t` counter, passed through `curl_easy_setopt`'s variadic argument where curl expects a pointer, and read back with `CURLINFO_PRIVATE` into a `size_t`. On a platform where `size_t` and pointers have the same width the number comes back unchanged, and the model compares the numbers directly. The counter's wrap-around at 2^64 is not modelled.
- `AsyncHass.TimerDelay`: `timeoutMs * 1000` overflows `int` past 2147483 ms, which C++ leaves undefined. The model takes the two's-complement wrap-around.
- `LegacyHass.Tick`: the legacy updater hands curl a `std::string_view*` as `CURLOPT_READDATA`, and `SendBufferCallback` casts it to `std::string*`, so the POST upload reads an object of the wrong type, which is undefined. The body the legacy handler actually sends is not modelled: `Tick` does not depend on the transfer at all.
- The live555 scheduler is abstracted: it holds pending tasks by token and a next-token counter. Its clock and the order in which tasks fire are not modelled.

## Findings

| source | as written | input that shows it | evidently intended | confidence | as-written member | corrected member |
|---|---|---|---|---|---|---|
| src/Callback/AsyncHassHandler.cxx:59-64, 72-77 | each request's context is stored under `contextId++` (the old value), but `CURLOPT_PRIVATE` is set after the increment, to the new value, so the completion looks up the wrong key | a fresh handler with `contextId` 1: the initial GET is stored under key 1 and tagged 2; its 200 response finds no context, so the state is never loaded and context 1 is never released; after a POST is issued under key 2, the GET's completion runs the GET handler and releases the POST's context | tag each context with the key it is stored under, so every completion finds and releases its own context | not executed | AsyncHass.RegisterAsWritten and AsyncHass.UpdateStateImplAsWritten (shown by AsyncHass.RegisterAsWrittenLosesResponse, AsyncHass.UpdateAsWrittenLosesPost and AsyncHass.AsWrittenCompletionHitsNextRequest) | AsyncHass.Register and AsyncHass.UpdateStateImpl (proved by AsyncHass.RegisterThenDone and AsyncHass.OnDoneKeepsWellFormed) |
