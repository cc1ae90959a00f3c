/**
  `callback::AsyncHassHandler`: the Home Assistant handler that runs its
  requests on a curl multi handle driven by the live555 scheduler.

  Each request gets a context in `easyCtxs_`, keyed by a number drawn from a
  file-level counter `contextId` (static, so shared by all handlers; the model
  threads it through the state). The finished transfer's `CURLOPT_PRIVATE`
  value is the number `CheckMultiInfo` looks the context up by. Transfers
  themselves are not modelled: a completion is an event carrying that private
  number, the effective method curl reports, and the response.
*/
module AsyncHass {
  import opened Wrappers
  import opened Json
  import opened HassCommon
  import opened HassState
  import opened Tools
  import S = Scheduler
  import D = Debouncer
  import R = RectJson

  /** A request context: the method it was prepared for, the private number set on the easy handle, and the body of a POST. */
  datatype Request = Request(verb: string, privateId: nat, payload: Doc)

  datatype Async = Async(
    hass: Handler,
    deb: D.Debouncer,
    sched: S.Scheduler,
    ctxs: map<nat, Request>,
    contextId: nat,
    debounceUs: int,
    timeoutToken: nat)

  /** The curl timer task, while pending, is the one `timeoutToken` names. */
  predicate TimerTagged(a: Async) {
    && a.timeoutToken < a.sched.nextToken
    && (a.timeoutToken in a.sched.pending ==> a.sched.pending[a.timeoutToken].proc == S.CurlTimeout)
  }

  /** Every context was keyed by an earlier counter value and carries its own key as private number. */
  predicate CtxsKeyed(a: Async) {
    forall k :: k in a.ctxs ==> k < a.contextId && a.ctxs[k].privateId == k
  }

  predicate WellFormed(a: Async) {
    && S.Valid(a.sched)
    && D.Consistent(a.deb, a.sched)
    && TimerTagged(a)
    && CtxsKeyed(a)
  }

  /** A handler on a scheduler, with the counter where the file-level `contextId` stands. */
  function NewAsync(sched: S.Scheduler, hass: Handler, contextId: nat): (a: Async)
    requires S.Valid(sched)
    ensures WellFormed(a)
    ensures a.ctxs == map[] && D.UpdateAllowed(a.deb) && a.debounceUs == DefaultDebounceUs
  {
    Async(hass, D.Initial, sched, map[], contextId, DefaultDebounceUs, 0)
  }

  /**
    Adding a request context as the source does: the key is the counter
    before the increment, the private number the counter after it.
  */
  function IssueRequestAsWritten(a: Async, verb: string, payload: Doc): (r: Async)
    ensures r.ctxs == a.ctxs[a.contextId := Request(verb, a.contextId + 1, payload)]
    ensures r.contextId == a.contextId + 1
    ensures r.hass == a.hass && r.deb == a.deb && r.sched == a.sched
  {
    var key := a.contextId;
    a.(ctxs := a.ctxs[key := Request(verb, key + 1, payload)], contextId := key + 1)
  }

  /** Adding a request context whose private number is its key. */
  function IssueRequest(a: Async, verb: string, payload: Doc): (r: Async)
    requires CtxsKeyed(a)
    ensures CtxsKeyed(r)
    ensures a.contextId !in a.ctxs
    ensures r.ctxs == a.ctxs[a.contextId := Request(verb, a.contextId, payload)]
    ensures |r.ctxs| == |a.ctxs| + 1
    ensures r.contextId > a.contextId
    ensures r.hass == a.hass && r.deb == a.deb && r.sched == a.sched && r.timeoutToken == a.timeoutToken
  {
    var key := a.contextId;
    a.(ctxs := a.ctxs[key := Request(verb, key, payload)], contextId := key + 1)
  }

  /** `Register()`: the one initial GET. */
  function Register(a: Async): (r: Async)
    requires WellFormed(a)
    ensures WellFormed(r)
    ensures r.ctxs.Keys == a.ctxs.Keys + {a.contextId} && a.contextId !in a.ctxs
    ensures r.ctxs[a.contextId].verb == "GET"
    ensures r.hass == a.hass && r.deb == a.deb && r.sched == a.sched
  {
    IssueRequest(a, "GET", JNull)
  }

  /** `Register()` with the source's numbering. */
  function RegisterAsWritten(a: Async): (r: Async)
    ensures r.ctxs.Keys == a.ctxs.Keys + {a.contextId}
    ensures r.ctxs[a.contextId] == Request("GET", a.contextId + 1, JNull)
  {
    IssueRequestAsWritten(a, "GET", JNull)
  }

  /**
    `UpdateState_Impl(state, attributes)`: the next state is always recorded;
    a POST of it is issued, and the debouncer armed, only when updates are
    allowed and the next state differs from the current one.
  */
  function UpdateStateImpl(a: Async, state: string, attributes: Doc): (r: Async)
    requires WellFormed(a)
    ensures WellFormed(r)
    ensures r.hass == UpdateStateInternal(a.hass, state, attributes)
    ensures var posted := D.UpdateAllowed(a.deb) && IsStateChanging(r.hass);
      && (posted ==>
          && r.ctxs == a.ctxs[a.contextId := Request("POST", a.contextId, r.hass.next)]
          && a.contextId !in a.ctxs
          && !D.UpdateAllowed(r.deb)
          && r.sched.pending[r.deb.token] == S.Task(if a.debounceUs < 0 then 0 else a.debounceUs, S.DebounceUpdate))
      && (!posted ==> r == a.(hass := r.hass))
  {
    var h := UpdateStateInternal(a.hass, state, attributes);
    if D.UpdateAllowed(a.deb) && IsStateChanging(h) then
      var a1 := IssueRequest(a.(hass := h), "POST", h.next);
      var d := D.Debounce(a1.deb, a1.sched, a1.debounceUs);
      a1.(deb := d.deb, sched := d.sched)
    else
      a.(hass := h)
  }

  /**
    `UpdateState_Impl` with the source's numbering: the POST's context is
    stored under the counter's old value but tagged with the new one.
  */
  function UpdateStateImplAsWritten(a: Async, state: string, attributes: Doc): (r: Async)
    requires S.Valid(a.sched) && D.Consistent(a.deb, a.sched)
    ensures r.hass == UpdateStateInternal(a.hass, state, attributes)
    ensures var posted := D.UpdateAllowed(a.deb) && IsStateChanging(r.hass);
      && (posted ==>
          && r.ctxs == a.ctxs[a.contextId := Request("POST", a.contextId + 1, r.hass.next)]
          && !D.UpdateAllowed(r.deb))
      && (!posted ==> r == a.(hass := r.hass))
  {
    var h := UpdateStateInternal(a.hass, state, attributes);
    if D.UpdateAllowed(a.deb) && IsStateChanging(h) then
      var a1 := IssueRequestAsWritten(a.(hass := h), "POST", h.next);
      var d := D.Debounce(a1.deb, a1.sched, a1.debounceUs);
      a1.(deb := d.deb, sched := d.sched)
    else
      a.(hass := h)
  }

  /** `operator()(rois)` on this handler: derive the update, then `UpdateState_Impl`. */
  function OnRois(a: Async, rois: Option<Rois>): (r: Result<Async, HassError>)
    requires WellFormed(a)
    ensures r.Failure? <==> KindOf(a.hass.entityId).None?
    ensures r.Success? ==> WellFormed(r.value)
  {
    var u :- Derive(a.hass.entityId, rois);
    Success(UpdateStateImpl(a, u.state, u.attributes))
  }

  /**
    A completed transfer in `CheckMultiInfo`: the context is looked up by the
    transfer's private number; if found, the response goes to the GET or POST
    handler by the effective method (compared without case), any exception is
    logged and dropped, and the context is erased. An unknown number is
    ignored.
  */
  function OnDone(a: Async, privateId: nat, effectiveMethod: Option<string>, code: int, body: Result<Json, JsonError>): (r: Async)
    ensures privateId !in a.ctxs ==> r == a
    ensures privateId in a.ctxs ==> r.ctxs == a.ctxs - {privateId}
    ensures privateId in a.ctxs && SameIgnoringCase(effectiveMethod, Some("GET")) ==>
      r.hass == HandleGetResponse(a.hass, code, body).h
    ensures privateId in a.ctxs && SameIgnoringCase(effectiveMethod, Some("POST")) ==>
      r.hass == HandlePostResponse(a.hass, code).h
    ensures !SameIgnoringCase(effectiveMethod, Some("GET")) && !SameIgnoringCase(effectiveMethod, Some("POST")) ==>
      r.hass == a.hass
    ensures r.deb == a.deb && r.sched == a.sched && r.contextId == a.contextId && r.timeoutToken == a.timeoutToken
  {
    if privateId !in a.ctxs then a
    else
      var step :=
        if SameIgnoringCase(effectiveMethod, Some("GET")) then HandleGetResponse(a.hass, code, body)
        else if SameIgnoringCase(effectiveMethod, Some("POST")) then HandlePostResponse(a.hass, code)
        else Step(a.hass, None);
      a.(hass := step.h, ctxs := a.ctxs - {privateId})
  }

  lemma OnDoneKeepsWellFormed(a: Async, privateId: nat, effectiveMethod: Option<string>, code: int, body: Result<Json, JsonError>)
    requires WellFormed(a)
    ensures WellFormed(OnDone(a, privateId, effectiveMethod, code, body))
  {
  }

  /**
    With matching numbers the initial GET is answered: the response reaches
    `HandleGetResponse` and the context is released.
  */
  lemma RegisterThenDone(a: Async, code: int, body: Result<Json, JsonError>)
    requires WellFormed(a)
    ensures var r := Register(a);
      var done := OnDone(r, a.contextId, Some("GET"), code, body);
      && done.ctxs == a.ctxs
      && done.hass == HandleGetResponse(a.hass, code, body).h
  {
    var r := Register(a);
    assert "GET" == "GET";
    assert r.ctxs - {a.contextId} == a.ctxs;
  }

  /** A fresh handler with no requests, the counter at 1 as the file-level static starts. */
  function Fresh(hass: Handler): Async {
    Async(hass, D.Initial, S.Empty, map[], 1, DefaultDebounceUs, 0)
  }

  /**
    As written, the initial GET of a fresh handler is stored under key 1 but
    tagged 2. Its completion finds no context: even a 200 response with a
    valid entity leaves the handler's state untouched, and context 1 is never
    released.
  */
  lemma RegisterAsWrittenLosesResponse(hass: Handler, fetched: Json)
    requires fetched.JObj? && {"state", "entity_id", "attributes"} <= fetched.fields.Keys
    ensures var r := RegisterAsWritten(Fresh(hass));
      var done := OnDone(r, r.ctxs[1].privateId, Some("GET"), 200, Success(fetched));
      && r.ctxs[1].privateId == 2
      && done.hass == hass
      && 1 in done.ctxs
  {
    var r := RegisterAsWritten(Fresh(hass));
    assert r.ctxs.Keys == {1};
  }

  /**
    As written, the first state change of a fresh handler is posted from
    context 1 tagged 2: the POST's completion finds no context, so its
    response is never handled and context 1 is never released.
  */
  lemma UpdateAsWrittenLosesPost(hass: Handler, state: string, attributes: Doc, code: int, body: Result<Json, JsonError>)
    requires IsStateChanging(UpdateStateInternal(hass, state, attributes))
    ensures var r := UpdateStateImplAsWritten(Fresh(hass), state, attributes);
      var done := OnDone(r, r.ctxs[1].privateId, Some("POST"), code, body);
      && r.ctxs[1].privateId == 2
      && done == r
      && 1 in done.ctxs
  {
    var r := UpdateStateImplAsWritten(Fresh(hass), state, attributes);
    assert r.ctxs.Keys == {1};
  }

  /**
    As written, when a POST is issued before the initial GET completes, the
    GET's completion (private number 2) finds the POST's context (key 2): the
    POST's context is released while its transfer is still running, and the
    GET's own context (key 1) is left behind.
  */
  lemma AsWrittenCompletionHitsNextRequest(hass: Handler, payload: Doc, code: int, body: Result<Json, JsonError>)
    ensures var r1 := RegisterAsWritten(Fresh(hass));
      var r2 := IssueRequestAsWritten(r1, "POST", payload);
      var done := OnDone(r2, r1.ctxs[1].privateId, Some("GET"), code, body);
      && r2.ctxs[2].verb == "POST"
      && 2 !in done.ctxs
      && 1 in done.ctxs
  {
  }

  /**
    Two updates in a row that both change the state issue one POST: the first
    arms the debouncer, which blocks the second until its task fires.
  */
  lemma DebounceSuppressesSecondPost(a: Async, s1: string, attrs1: Doc, s2: string, attrs2: Doc)
    requires WellFormed(a)
    ensures var r1 := UpdateStateImpl(a, s1, attrs1);
      var r2 := UpdateStateImpl(r1, s2, attrs2);
      |r2.ctxs| <= |a.ctxs| + 1
  {
    var r1 := UpdateStateImpl(a, s1, attrs1);
    if D.UpdateAllowed(a.deb) && IsStateChanging(r1.hass) {
      assert |r1.ctxs| == |a.ctxs| + 1;
    } else {
      assert r1.ctxs == a.ctxs;
    }
  }

  /** A scheduled task fires: the debouncer's release re-allows updates; the curl timer only leaves the queue. */
  function FireTask(a: Async, token: nat): (r: Async)
    requires WellFormed(a)
    requires token in a.sched.pending
    ensures WellFormed(r)
    ensures token !in r.sched.pending
    ensures token == a.deb.token && !D.UpdateAllowed(a.deb) ==> D.UpdateAllowed(r.deb)
  {
    var f := D.OnTaskFired(a.deb, a.sched, token);
    D.FireKeepsConsistent(a.deb, a.sched, token);
    a.(deb := f.deb, sched := f.sched)
  }

  /**
    The delay handed to `scheduleDelayedTask`: `timeoutMs` (0 counts as 1)
    times 1000, computed in `int`. Past 2147483 ms the product leaves the
    `int` range; the model takes the two's-complement wrap-around.
  */
  function TimerDelay(timeoutMs: R.Int32): (us: R.Int32)
    requires timeoutMs >= 0
    ensures timeoutMs <= 2147483 ==> us == (if timeoutMs == 0 then 1 else timeoutMs) * 1000
    ensures (us - timeoutMs * 1000) % R.TwoTo32 == 0 || timeoutMs == 0
  {
    R.WrapInt32((if timeoutMs == 0 then 1 else timeoutMs) * 1000)
  }

  /** A timeout of 2147484 ms and more wraps to a negative delay, which the scheduler runs at once. */
  lemma LongTimeoutWraps()
    ensures TimerDelay(2147484) == -2147483296
    ensures TimerDelay(3000000) == -1294967296
  {
  }

  /**
    `TimeoutCallback(multi, timeoutMs, handler)`. A negative timeout cancels
    the timer; otherwise a timer task is scheduled for `timeoutMs` (0 counts
    as 1) milliseconds, in microseconds, and its token kept. A null handler
    does nothing. A previously scheduled timer is not cancelled first.
  */
  function TimeoutCallback(a: Option<Async>, timeoutMs: R.Int32): (r: Option<Async>)
    requires a.Some? ==> WellFormed(a.value)
    ensures a.None? <==> r.None?
    ensures a.Some? ==> WellFormed(r.value)
    ensures a.Some? && timeoutMs < 0 ==>
      && a.value.timeoutToken !in r.value.sched.pending
      && r.value.sched.pending == a.value.sched.pending - {a.value.timeoutToken}
    ensures a.Some? && timeoutMs >= 0 ==>
      && r.value.timeoutToken !in a.value.sched.pending
      && r.value.sched.pending == a.value.sched.pending[r.value.timeoutToken :=
           S.Task(if TimerDelay(timeoutMs) < 0 then 0 else TimerDelay(timeoutMs), S.CurlTimeout)]
    ensures a.Some? && 0 <= timeoutMs <= 2147483 ==>
      r.value.sched.pending[r.value.timeoutToken] == S.Task((if timeoutMs == 0 then 1 else timeoutMs) * 1000, S.CurlTimeout)
    ensures a.Some? ==> r.value.deb == a.value.deb && r.value.ctxs == a.value.ctxs && r.value.hass == a.value.hass
  {
    match a
    case None => None
    case Some(h) =>
      if timeoutMs < 0 then
        Some(h.(sched := S.Unschedule(h.sched, h.timeoutToken)))
      else
        var s := S.Schedule(h.sched, TimerDelay(timeoutMs), S.CurlTimeout);
        Some(h.(sched := s.sched, timeoutToken := s.token))
  }

  // curl's poll actions (CURL_POLL_*), live555's socket conditions and curl's select bits (CURL_CSELECT_*)
  const PollNone: int := 0
  const PollIn: int := 1
  const PollOut: int := 2
  const PollInOut: int := 3
  const PollRemove: int := 4
  const SocketReadable: bv32 := 2
  const SocketWritable: bv32 := 4
  const CSelectIn: bv32 := 1
  const CSelectOut: bv32 := 2

  /** The conditions `SocketCallback` asks the scheduler to watch: writable unless `POLL_IN`, readable unless `POLL_OUT`. */
  function PollConditions(action: int): (r: bv32)
    ensures action == PollIn ==> r == SocketReadable
    ensures action == PollOut ==> r == SocketWritable
    ensures action == PollInOut ==> r == SocketReadable | SocketWritable
  {
    (if action != PollIn then SocketWritable else 0) | (if action != PollOut then SocketReadable else 0)
  }

  /** `BackgroundHandlerProc`: readable becomes `CSELECT_IN` and writable `CSELECT_OUT`, independently. */
  function SelectBits(mask: bv32): (r: bv32)
    ensures (r & CSelectIn != 0) <==> (mask & SocketReadable != 0)
    ensures (r & CSelectOut != 0) <==> (mask & SocketWritable != 0)
    ensures r & !(CSelectIn | CSelectOut) == 0
  {
    (if mask & SocketReadable != 0 then CSelectIn else 0) | (if mask & SocketWritable != 0 then CSelectOut else 0)
  }

  /** The scheduler reports back to curl exactly the directions curl asked to poll. */
  lemma PollRoundTrip(action: int)
    requires action == PollIn || action == PollOut || action == PollInOut
    ensures SelectBits(PollConditions(action)) == action as bv32
  {
  }

  /** The sockets with a context (`socketCtxs_`) and the conditions the scheduler watches on each. */
  datatype Sockets = Sockets(ctxs: set<int>, watched: map<int, bv32>)

  /**
    `SocketCallback(easy, s, action, handler, socketContext)`. For the three
    poll actions a context is created (unless curl passed one back) and the
    socket watched; `POLL_REMOVE` stops watching and drops the context; other
    actions, or a handler already gone, change nothing.
  */
  function SocketCallback(st: Sockets, handlerAlive: bool, s: int, action: int, hasContext: bool): (r: Sockets)
    ensures !handlerAlive ==> r == st
    ensures handlerAlive && (action == PollIn || action == PollOut || action == PollInOut) ==>
      && s in r.watched && r.watched[s] == PollConditions(action)
      && (!hasContext ==> s in r.ctxs)
      && r.ctxs >= st.ctxs
    ensures handlerAlive && action == PollRemove ==> s !in r.watched && s !in r.ctxs
    ensures forall t :: t != s ==> (t in r.ctxs <==> t in st.ctxs)
    ensures forall t :: t != s && t in st.watched ==> t in r.watched && r.watched[t] == st.watched[t]
    ensures forall t :: t != s && t in r.watched ==> t in st.watched
  {
    if !handlerAlive then st
    else if action == PollIn || action == PollOut || action == PollInOut then
      Sockets(if hasContext then st.ctxs else st.ctxs + {s}, st.watched[s := PollConditions(action)])
    else if action == PollRemove then
      Sockets(st.ctxs - {s}, st.watched - {s})
    else st
  }
}
