/**
  The `currentState_` / `nextState_` pair of the callback-style Home
  Assistant handler (`callback::BaseHassHandler`): the state last known to
  Home Assistant and the state to be posted next, both nlohmann values that
  start out null.
*/
module HassState {
  import opened Wrappers
  import opened Json
  import opened HassCommon

  datatype Handler = Handler(entityId: string, friendlyName: string, path: string, current: Doc, next: Doc)

  /** The constructor: path from the host, both states null. `friendlyName` is a public field, set afterwards. */
  function NewHandler(host: string, entityId: string, friendlyName: string): (h: Handler)
    ensures h.path == StatesPath(host, entityId)
    ensures h.current == JNull && h.next == JNull
    ensures h.entityId == entityId && h.friendlyName == friendlyName
  {
    Handler(entityId, friendlyName, StatesPath(host, entityId), JNull, JNull)
  }

  /** `IsStateChanging()`. */
  predicate IsStateChanging(h: Handler) {
    h.next != h.current
  }

  /**
    `UpdateStateInternal(state, attributes)`: writes `state` and `attributes`
    into the next state and, when the handler has a friendly name, adds it to
    the attributes. Other members of the next state stay.
  */
  function UpdateStateInternal(h: Handler, state: string, attributes: Doc): (r: Handler)
    ensures r.current == h.current && r.entityId == h.entityId && r.path == h.path && r.friendlyName == h.friendlyName
    ensures r.next.JObj?
    ensures r.next.fields.Keys == Fields(h.next).Keys + {"state", "attributes"}
    ensures r.next.fields["state"] == JStr(state)
    ensures forall k :: k in Fields(h.next) && k != "state" && k != "attributes" ==> r.next.fields[k] == h.next.fields[k]
    ensures var a := r.next.fields["attributes"];
      && (a.JObj? || a.JNull?)
      && ("friendly_name" in Fields(a) <==> h.friendlyName != [] || "friendly_name" in Fields(attributes))
      && (h.friendlyName != [] ==> Fields(a)["friendly_name"] == JStr(h.friendlyName))
      && (forall k :: k in Fields(attributes) && k != "friendly_name" ==> k in Fields(a) && Fields(a)[k] == Fields(attributes)[k])
      && (h.friendlyName == [] ==> a == attributes)
  {
    var attrs: Doc := if h.friendlyName != [] then Set(attributes, "friendly_name", JStr(h.friendlyName)) else attributes;
    h.(next := Set(Set(h.next, "state", JStr(state)), "attributes", attrs))
  }

  /**
    `IsStateBecomingUnknown()`: whether the next state's `state` is the string
    "unknown". The lookup is the const `operator[]`: on a null value it
    throws; a missing member is undefined behaviour, modelled as an error.
  */
  function IsStateBecomingUnknown(h: Handler): (r: Result<bool, JsonError>)
    ensures h.next.JNull? ==> r == Failure(TypeError)
    ensures r.Success? <==> "state" in Fields(h.next)
    ensures r == Success(true) <==> "state" in Fields(h.next) && h.next.fields["state"] == JStr("unknown")
  {
    if h.next.JNull? then Failure(TypeError)
    else if "state" !in h.next.fields then Failure(OutOfRange)
    else Success(h.next.fields["state"] == JStr("unknown"))
  }

  /** A handler call's outcome: the new handler and the exception it raised, if any. */
  datatype Step = Step(h: Handler, err: Option<HassError>)

  predicate IsOk(code: int) {
    code == 200 || code == 201
  }

  /**
    Copying the fetched entity's `state`, `entity_id` and `attributes` into
    `doc` (the const `operator[]` reads of the fetched value).
  */
  function Adopt(doc: Doc, fetched: Json): (r: Result<Doc, JsonError>)
    ensures r.Success? <==> fetched.JObj? && {"state", "entity_id", "attributes"} <= fetched.fields.Keys
    ensures r.Success? ==>
      && r.value.JObj?
      && r.value.fields.Keys == Fields(doc).Keys + {"state", "entity_id", "attributes"}
      && (forall k :: k in {"state", "entity_id", "attributes"} ==> r.value.fields[k] == fetched.fields[k])
      && (forall k :: k in Fields(doc) && k !in {"state", "entity_id", "attributes"} ==> r.value.fields[k] == doc.fields[k])
    ensures !fetched.JObj? ==> r == Failure(TypeError)
  {
    if !fetched.JObj? then Failure(TypeError)
    else if !({"state", "entity_id", "attributes"} <= fetched.fields.Keys) then Failure(OutOfRange)
    else
      Success(Set(Set(Set(doc, "state", fetched.fields["state"]), "entity_id", fetched.fields["entity_id"]),
                  "attributes", fetched.fields["attributes"]))
  }

  /**
    `HandleGetResponse`. On 200 or 201 the parsed body's three members become
    the current state; on 404 the current state becomes an "unknown" entity
    with null attributes. Both then copy the current state into the next
    state. Any other status, a body that does not parse, or a body of the
    wrong shape raises and changes nothing.
  */
  function HandleGetResponse(h: Handler, code: int, body: Result<Json, JsonError>): (r: Step)
    ensures r.err.None? ==> r.h.next == r.h.current && !IsStateChanging(r.h)
    ensures r.err.Some? ==> r.h == h
    ensures !IsOk(code) && code != 404 ==> r == Step(h, Some(RequestFailed(code)))
    ensures code == 404 ==>
      && r.err.None?
      && r.h.current.JObj?
      && {"state", "entity_id", "attributes"} <= r.h.current.fields.Keys
      && r.h.current.fields["state"] == JStr("unknown")
      && r.h.current.fields["entity_id"] == JStr(h.entityId)
      && r.h.current.fields["attributes"] == JNull
    ensures IsOk(code) ==> (r.err.None? <==> body.Success? && Adopt(h.current, body.value).Success?)
    ensures IsOk(code) && r.err.None? ==> r.h.current == Adopt(h.current, body.value).value
    ensures r.h.entityId == h.entityId && r.h.path == h.path && r.h.friendlyName == h.friendlyName
  {
    if IsOk(code) then
      match body
      case Failure(e) => Step(h, Some(Json(e)))
      case Success(fetched) =>
        match Adopt(h.current, fetched)
        case Failure(e) => Step(h, Some(Json(e)))
        case Success(cur) => Step(h.(current := cur, next := cur), None)
    else if code == 404 then
      var cur := Set(Set(Set(h.current, "state", JStr("unknown")), "entity_id", JStr(h.entityId)), "attributes", JNull);
      Step(h.(current := cur, next := cur), None)
    else
      Step(h, Some(RequestFailed(code)))
  }

  /** `doc[key].get<std::string>()` on the non-const value: a missing member is first inserted as null. */
  function GetStringMember(doc: Doc, key: string): (r: (Doc, Result<string, JsonError>))
    ensures r.1.Success? <==> key in Fields(doc) && doc.fields[key].JStr?
    ensures r.1.Success? ==> r.0 == doc && r.1.value == doc.fields[key].s
    ensures key in Fields(doc) ==> r.0 == doc
    ensures key !in Fields(doc) ==> r.0 == Set(doc, key, JNull) && r.1 == Failure(TypeError)
  {
    var doc' := if key in Fields(doc) then doc else Set(doc, key, JNull);
    var v := doc'.fields[key];
    (doc', if v.JStr? then Success(v.s) else Failure(TypeError))
  }

  /**
    `HandlePostResponse`. On 200 or 201 the log line reads the next state's
    `entity_id` and `state` as strings (arguments taken left to right); if
    both are strings the next state becomes the current one. A missing member
    is inserted as null and the read throws before the copy. Any other status
    raises and changes nothing.
  */
  function HandlePostResponse(h: Handler, code: int): (r: Step)
    ensures !IsOk(code) ==> r == Step(h, Some(RequestFailed(code)))
    ensures r.err.None? <==>
      IsOk(code) && "entity_id" in Fields(h.next) && h.next.fields["entity_id"].JStr?
      && "state" in Fields(h.next) && h.next.fields["state"].JStr?
    ensures r.err.None? ==> r.h == h.(current := h.next) && !IsStateChanging(r.h)
    ensures r.err.Some? ==> r.h.current == h.current
    ensures r.h.entityId == h.entityId && r.h.path == h.path && r.h.friendlyName == h.friendlyName
  {
    if !IsOk(code) then Step(h, Some(RequestFailed(code)))
    else
      var (n1, id) := GetStringMember(h.next, "entity_id");
      match id
      case Failure(e) => Step(h.(next := n1), Some(Json(e)))
      case Success(_) =>
        var (n2, st) := GetStringMember(n1, "state");
        match st
        case Failure(e) => Step(h.(next := n2), Some(Json(e)))
        case Success(_) => Step(h.(next := n2, current := n2), None)
  }

  /**
    After the entity was not found, any update is accepted by a successful
    POST: the 404 branch supplies `entity_id` and every update writes a string
    `state`.
  */
  lemma PostAfterNotFoundSucceeds(h: Handler, state: string, attributes: Doc, code: int)
    requires IsOk(code)
    ensures var g := HandleGetResponse(h, 404, Failure(ParseError)).h;
      var u := UpdateStateInternal(g, state, attributes);
      var p := HandlePostResponse(u, code);
      p.err.None? && p.h.current == u.next
  {
  }

  /** A POST before any GET completed has no `entity_id` to log: it raises and the current state stays null. */
  lemma PostBeforeGetFails(host: string, entityId: string, friendlyName: string, state: string, attributes: Doc)
    ensures var u := UpdateStateInternal(NewHandler(host, entityId, friendlyName), state, attributes);
      var p := HandlePostResponse(u, 200);
      && p.err == Some(Json(TypeError))
      && p.h.current == JNull
      && p.h.next.fields["entity_id"] == JNull
  {
  }

  /** A binary sensor fed no detection result reports "unknown", which the handler recognises as such. */
  lemma NullPayloadBecomesUnknown(h: Handler)
    requires KindOf(h.entityId) == Some(BinarySensor)
    ensures var u := Derive(h.entityId, None).value;
      IsStateBecomingUnknown(UpdateStateInternal(h, u.state, u.attributes)) == Success(true)
  {
  }
}
