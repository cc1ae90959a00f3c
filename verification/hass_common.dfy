/**
  What both Home Assistant handler generations derive from a detection
  result: the entity kind from the id prefix, the REST path of the entity's
  state, and the state string and attributes reported for a list of regions
  of interest (`None` when the detector produced no result).
*/
module HassCommon {
  import opened Wrappers
  import opened Text
  import opened Numerals
  import opened Json
  import opened RectJson

  type Rois = seq<Rect>

  const BinaryPrefix: string := "binary_sensor."
  const SensorPrefix: string := "sensor."
  const SupervisorHost: string := "supervisor"

  /** `debounceTime{30.0}` seconds, in microseconds. */
  const DefaultDebounceUs: int := 30_000_000

  datatype EntityKind = BinarySensor | Sensor

  /** The entity kind an id selects; other prefixes are unsupported. */
  function KindOf(entityId: string): (r: Option<EntityKind>)
    ensures r == Some(BinarySensor) <==> StartsWith(entityId, BinaryPrefix)
    ensures r == Some(Sensor) <==> StartsWith(entityId, SensorPrefix)
    ensures r.None? <==> !StartsWith(entityId, BinaryPrefix) && !StartsWith(entityId, SensorPrefix)
  {
    assert StartsWith(entityId, BinaryPrefix) ==> entityId[0] == 'b';
    assert StartsWith(entityId, SensorPrefix) ==> entityId[0] == 's';
    if StartsWith(entityId, BinaryPrefix) then Some(BinarySensor)
    else if StartsWith(entityId, SensorPrefix) then Some(Sensor)
    else None
  }

  /** The constructor's URL path: the supervisor proxy prefixes `/core`. */
  function StatesPath(host: string, entityId: string): (r: string)
    ensures StartsWith(r, if host == SupervisorHost then "/core/api/states/" else "/api/states/")
    ensures EndsWith(r, entityId)
  {
    var prefix := if host == SupervisorHost then "/core/api/states/" else "/api/states/";
    var r := prefix + entityId;
    assert r[..|prefix|] == prefix;
    assert r[|r| - |entityId|..] == entityId;
    r
  }

  /** After a text ending in '/', a '/'-free tail is the last segment. */
  lemma {:induction false} LastSegmentAfterSlash(a: string, e: string)
    requires |a| > 0 && a[|a| - 1] == '/'
    requires '/' !in e
    ensures LastSegment(a + e, '/') == e
    decreases |e|
  {
    if |e| > 0 {
      var front := e[..|e| - 1];
      LastSegmentAfterSlash(a, front);
      assert (a + e)[..|a + e| - 1] == a + front;
      assert front + [e[|e| - 1]] == e;
    } else {
      assert a + e == a;
    }
  }

  /** The entity id is the last path segment whenever it holds no '/'. */
  lemma StatesPathNamesEntity(host: string, entityId: string)
    requires '/' !in entityId
    ensures LastSegment(StatesPath(host, entityId), '/') == entityId
  {
    var prefix := if host == SupervisorHost then "/core/api/states/" else "/api/states/";
    LastSegmentAfterSlash(prefix, entityId);
  }

  /** Binary sensor state: no result is "unknown", no regions "off", any region "on". */
  function BinaryState(rois: Option<Rois>): (r: string)
    ensures r == "unknown" <==> rois.None?
    ensures r == "off" <==> rois == Some([])
    ensures r == "on" <==> rois.Some? && |rois.value| > 0
  {
    match rois
    case None => "unknown"
    case Some(rs) => if |rs| > 0 then "on" else "off"
  }

  /** Sensor state: "unknown", or the decimal count of regions. */
  function SensorState(rois: Option<Rois>): (r: string)
    ensures rois.None? ==> r == "unknown"
    ensures rois.Some? ==> ParseNat(r, DecimalAlphabet) == Some(|rois.value|)
    ensures r == "unknown" <==> rois.None?
  {
    match rois
    case None => "unknown"
    case Some(rs) =>
      var s := NatToString(|rs|);
      assert s != "unknown" by { assert AllIn(s, DecimalAlphabet); assert s[0] in DecimalAlphabet; }
      s
  }

  /** `to_json` of each region, in order. */
  function RoiJsons(rois: Rois): (r: seq<Json>)
    ensures |r| == |rois|
    ensures forall i :: 0 <= i < |r| ==> RectFromJson(r[i]) == Success(rois[i])
  {
    seq(|rois|, i requires 0 <= i < |rois| => RectToJson(rois[i]))
  }

  /**
    Binary sensor attributes: `device_class` "motion" and, when there are
    regions, a `rois` array built by one `push_back` per region.
  */
  function BinaryAttributes(rois: Option<Rois>): (r: Doc)
    ensures r.JObj?
    ensures r.fields.Keys == {"device_class"} + (if rois.Some? && |rois.value| > 0 then {"rois"} else {})
    ensures r.fields["device_class"] == JStr("motion")
    ensures "rois" in r.fields ==> r.fields["rois"] == JArr(RoiJsons(rois.value))
  {
    var base := Set(JNull, "device_class", JStr("motion"));
    var items := RoiJsons(rois.GetOr([]));
    PushAllFresh(base, "rois", items);
    PushAll(base, "rois", items).value
  }

  /**
    Sensor attributes: the loop that would add `rois` runs over an empty list,
    so the attributes stay a null value.
  */
  function SensorAttributes(): (r: Doc)
    ensures r == JNull
    ensures Fields(r) == map[]
  {
    PushAll(JNull, "rois", RoiJsons([])).value
  }

  datatype Update = Update(state: string, attributes: Doc)

  datatype HassError =
    | UnsupportedEntity(entityId: string)   // std::runtime_error from operator()
    | Json(err: JsonError)                  // a nlohmann exception
    | RequestFailed(code: int)              // std::runtime_error for an unexpected HTTP status

  /** `operator()(rois)`: the update the id's entity kind calls for. */
  function Derive(entityId: string, rois: Option<Rois>): (r: Result<Update, HassError>)
    ensures r.Failure? <==> KindOf(entityId).None?
    ensures r.Failure? ==> r.error == UnsupportedEntity(entityId)
    ensures KindOf(entityId) == Some(BinarySensor) ==>
      r == Success(Update(BinaryState(rois), BinaryAttributes(rois)))
    ensures KindOf(entityId) == Some(Sensor) ==>
      r.Success? && r.value.state == SensorState(rois) && r.value.attributes == JNull
  {
    match KindOf(entityId)
    case Some(BinarySensor) => Success(Update(BinaryState(rois), BinaryAttributes(rois)))
    case Some(Sensor) => Success(Update(SensorState(rois), SensorAttributes()))
    case None => Failure(UnsupportedEntity(entityId))
  }

  /** A binary sensor reports exactly the regions it was given, and they read back as the same rectangles. */
  lemma BinaryRoisReadBack(entityId: string, rs: Rois)
    requires KindOf(entityId) == Some(BinarySensor) && |rs| > 0
    ensures var u := Derive(entityId, Some(rs)).value;
      && u.state == "on"
      && "rois" in u.attributes.fields
      && u.attributes.fields["rois"].JArr?
      && |u.attributes.fields["rois"].items| == |rs|
      && forall i :: 0 <= i < |rs| ==> RectFromJson(u.attributes.fields["rois"].items[i]) == Success(rs[i])
  {
  }

  /** A sensor's state never lists regions: the count is all that is reported. */
  lemma SensorNeverListsRois(entityId: string, rois: Option<Rois>)
    requires KindOf(entityId) == Some(Sensor)
    ensures "rois" !in Fields(Derive(entityId, rois).value.attributes)
  {
  }
}
