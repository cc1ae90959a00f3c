/**
  The older thread-based `home_assistant::HassHandler`: a factory picks the
  handler by entity kind, `UpdateState` records the next state, and an updater
  thread posts it when it differs from the current one and the debounce time
  has passed. Only the thread's decision and its effect on the two states are
  modelled; times are microseconds on a steady clock.
*/
module LegacyHass {
  import opened Wrappers
  import opened Json
  import opened HassCommon
  import opened HassState

  /** The updater thread waits this long before its first post, while the feed stabilises. */
  const WarmupUs: int := 30_000_000

  datatype Legacy = Legacy(kind: EntityKind, path: string, current: Doc, next: Doc, lastUpdateUs: int, debounceUs: int)

  /**
    `HassHandler::Create`: a binary-sensor or sensor handler by prefix,
    otherwise an unsupported-entity error. The path has no supervisor branch.
  */
  function Create(entityId: string): (r: Result<Legacy, HassError>)
    ensures r.Success? <==> KindOf(entityId).Some?
    ensures r.Failure? ==> r.error == UnsupportedEntity(entityId)
    ensures r.Success? ==>
      && r.value.kind == KindOf(entityId).value
      && r.value.path == StatesPath("", entityId)
      && r.value.current == JNull && r.value.next == JNull
      && r.value.debounceUs == DefaultDebounceUs
  {
    match KindOf(entityId)
    case None => Failure(UnsupportedEntity(entityId))
    case Some(kind) => Success(Legacy(kind, "/api/states/" + entityId, JNull, JNull, 0, DefaultDebounceUs))
  }

  /** Whatever the host, the factory's handler uses the path a non-supervisor host gets. */
  lemma CreatePathIgnoresSupervisor(entityId: string)
    requires KindOf(entityId).Some?
    ensures Create(entityId).value.path != StatesPath(SupervisorHost, entityId)
  {
    var p := Create(entityId).value.path;
    assert p[1] == 'a';
    assert StatesPath(SupervisorHost, entityId)[1] == 'c';
  }

  /**
    The thread's start: the initial GET's body is adopted only when the
    transfer itself succeeded (the HTTP status is not looked at); a body that
    does not parse or lacks a member throws out of the thread. The first
    "last update" lies `WarmupUs` after `nowUs`.
  */
  function Start(l: Legacy, transferOk: bool, body: Result<Json, JsonError>, nowUs: int): (r: Result<Legacy, JsonError>)
    ensures !transferOk ==> r == Success(l.(lastUpdateUs := nowUs + WarmupUs))
    ensures r.Success? ==> r.value.lastUpdateUs == nowUs + WarmupUs && r.value.kind == l.kind
    ensures transferOk && r.Success? ==> r.value.next == r.value.current
    ensures transferOk ==> (r.Success? <==> body.Success? && Adopt(l.current, body.value).Success?)
  {
    if !transferOk then Success(l.(lastUpdateUs := nowUs + WarmupUs))
    else
      var fetched :- body;
      var cur :- Adopt(l.current, fetched);
      Success(l.(current := cur, next := cur, lastUpdateUs := nowUs + WarmupUs))
  }

  /**
    `BinarySensorHandler::operator()` attributes: only the `rois` array, one
    entry per region; no `device_class`. No regions leave them null.
  */
  function LegacyBinaryAttributes(rois: Option<Rois>): (r: Doc)
    ensures rois.None? || rois == Some([]) ==> r == JNull
    ensures rois.Some? && |rois.value| > 0 ==> r == JObj(map["rois" := JArr(RoiJsons(rois.value))])
  {
    var items := RoiJsons(rois.GetOr([]));
    PushAllFresh(JNull, "rois", items);
    assert Set(JNull, "rois", JArr(items)) == JObj(map["rois" := JArr(items)]);
    PushAll(JNull, "rois", items).value
  }

  /** The state string and attributes each handler class passes to `UpdateState`. */
  function LegacyDerive(kind: EntityKind, rois: Option<Rois>): (u: Update)
    ensures kind == BinarySensor ==> u.state == BinaryState(rois)
    ensures kind == Sensor ==> u.state == SensorState(rois) && u.attributes == JNull
  {
    match kind
    case BinarySensor => Update(BinaryState(rois), LegacyBinaryAttributes(rois))
    case Sensor => Update(SensorState(rois), SensorAttributes())
  }

  /**
    `UpdateState(state, attributes)`: the state is written, then the
    attributes go under `attributes.rois` of the next state. An `attributes`
    member that is neither object nor null (as a fetched state could have)
    makes the second write throw, after the first.
  */
  function UpdateState(l: Legacy, state: string, attributes: Doc): (r: (Legacy, Option<JsonError>))
    ensures r.0.current == l.current && r.0.kind == l.kind && r.0.lastUpdateUs == l.lastUpdateUs
    ensures r.0.next.JObj? && "state" in r.0.next.fields && r.0.next.fields["state"] == JStr(state)
    ensures r.1.None? <==> "attributes" !in Fields(l.next) || l.next.fields["attributes"].JObj? || l.next.fields["attributes"].JNull?
    ensures r.1.None? ==>
      && "attributes" in r.0.next.fields
      && r.0.next.fields["attributes"].JObj?
      && "rois" in r.0.next.fields["attributes"].fields
      && r.0.next.fields["attributes"].fields["rois"] == attributes
  {
    var n1 := Set(l.next, "state", JStr(state));
    var attrs := if "attributes" in n1.fields then n1.fields["attributes"] else JNull;
    if attrs.JObj? || attrs.JNull? then
      (l.(next := Set(n1, "attributes", Set(attrs, "rois", attributes))), None)
    else
      (l.(next := n1), Some(TypeError))
  }

  /** A binary sensor's regions end up one level deeper than the callback handler puts them: under `attributes.rois.rois`. */
  lemma BinaryRoisNested(l: Legacy, rs: Rois)
    requires l.kind == BinarySensor && |rs| > 0
    requires "attributes" !in Fields(l.next)
    ensures var u := LegacyDerive(BinarySensor, Some(rs));
      var r := UpdateState(l, u.state, u.attributes);
      && r.1.None?
      && r.0.next.fields["attributes"].fields["rois"] == JObj(map["rois" := JArr(RoiJsons(rs))])
      && "device_class" !in r.0.next.fields["attributes"].fields
  {
    var u := LegacyDerive(BinarySensor, Some(rs));
    var r := UpdateState(l, u.state, u.attributes);
    assert r.0.next.fields["attributes"] == JObj(map["rois" := u.attributes]);
  }

  /** The updater thread's condition for a post. */
  predicate ShouldPost(l: Legacy, nowUs: int) {
    l.next != l.current && nowUs - l.lastUpdateUs > l.debounceUs
  }

  /**
    One wake-up of the updater thread at `nowUs`: when a post is due the next
    state becomes the current one, whatever the transfer's outcome, and the
    time after the transfer, `afterUs`, is the new last update.
  */
  function Tick(l: Legacy, nowUs: int, afterUs: int): (r: Legacy)
    ensures ShouldPost(l, nowUs) ==> r.current == l.next && r.next == l.next && r.lastUpdateUs == afterUs
    ensures !ShouldPost(l, nowUs) ==> r == l
    ensures r.next == l.next && r.kind == l.kind && r.debounceUs == l.debounceUs
  {
    if ShouldPost(l, nowUs) then l.(current := l.next, lastUpdateUs := afterUs) else l
  }

  /** Nothing is posted until the warm-up and one debounce period have passed since the start. */
  lemma NoPostDuringWarmup(l: Legacy, transferOk: bool, body: Result<Json, JsonError>, startUs: int, nowUs: int)
    requires Start(l, transferOk, body, startUs).Success?
    requires nowUs <= startUs + WarmupUs + l.debounceUs
    ensures !ShouldPost(Start(l, transferOk, body, startUs).value, nowUs)
  {
  }

  /** After a post the states agree, so no further post happens until the next update. */
  lemma TickSettles(l: Legacy, nowUs: int, afterUs: int, laterUs: int)
    requires ShouldPost(l, nowUs)
    ensures !ShouldPost(Tick(l, nowUs, afterUs), laterUs)
  {
  }
}
