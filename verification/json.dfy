/**
  A small model of the JSON values the Home Assistant handlers build and read
  (nlohmann::json). Numbers are integers only: no value the model touches is
  fractional. An object is a map from keys to values, as nlohmann's
  `std::map`-backed objects are.
*/
module Json {
  import opened Wrappers

  datatype Json =
    | JNull
    | JBool(b: bool)
    | JInt(i: int)
    | JStr(s: string)
    | JArr(items: seq<Json>)
    | JObj(fields: map<string, Json>)

  /** The exceptions nlohmann::json raises on the paths the model follows. */
  datatype JsonError =
    | TypeError      // operator[] or get<> on a value of the wrong type
    | OutOfRange     // at() with a missing key
    | ParseError     // json::parse on malformed text

  /**
    A value that `j[key] = v` may write into: an object, or null, which the
    assignment turns into an object. A default-constructed `json` (and one
    assigned from an empty brace list) is null.
  */
  type Doc = j: Json | j.JNull? || j.JObj? witness JNull

  /** The members of an object; null has none. */
  function Fields(d: Doc): map<string, Json> {
    if d.JObj? then d.fields else map[]
  }

  /** `d[key] = v`. */
  function Set(d: Doc, key: string, v: Json): (r: Doc)
    ensures r.JObj?
    ensures r.fields.Keys == Fields(d).Keys + {key}
    ensures r.fields[key] == v
    ensures forall k :: k in Fields(d) && k != key ==> r.fields[k] == Fields(d)[k]
  {
    JObj(Fields(d)[key := v])
  }

  /** The member `key` of `j`, if `j` is an object that has one. */
  function Get(j: Json, key: string): Option<Json> {
    if j.JObj? && key in j.fields then Some(j.fields[key]) else None
  }

  /**
    `d[key].push_back(v)` for each `v` in `vs`, in order. The first push turns a
    missing or null member into an array; pushing onto any other non-array
    value is a type error.
  */
  function PushAll(d: Doc, key: string, vs: seq<Json>): (r: Result<Doc, JsonError>)
    decreases |vs|
  {
    if |vs| == 0 then Success(d)
    else
      var cur := if key in Fields(d) then Fields(d)[key] else JNull;
      match cur
      case JNull => PushAll(Set(d, key, JArr([vs[0]])), key, vs[1..])
      case JArr(items) => PushAll(Set(d, key, JArr(items + [vs[0]])), key, vs[1..])
      case _ => Failure(TypeError)
  }

  /**
    Pushing onto an array member appends the values in order; the other
    members are untouched.
  */
  lemma {:induction false} PushAllOntoArray(d: Doc, key: string, items: seq<Json>, vs: seq<Json>)
    requires key in Fields(d) && Fields(d)[key] == JArr(items)
    ensures PushAll(d, key, vs) == Success(Set(d, key, JArr(items + vs)))
    decreases |vs|
  {
    if |vs| == 0 {
      assert items + vs == items;
      assert Set(d, key, JArr(items)) == d;
    } else {
      var d' := Set(d, key, JArr(items + [vs[0]]));
      PushAllOntoArray(d', key, items + [vs[0]], vs[1..]);
      assert (items + [vs[0]]) + vs[1..] == items + vs;
      assert Set(d', key, JArr(items + vs)) == Set(d, key, JArr(items + vs));
    }
  }

  /**
    Pushing every value of `vs` under a key the document lacks leaves the key
    absent when `vs` is empty and otherwise creates an array holding exactly
    `vs`.
  */
  lemma PushAllFresh(d: Doc, key: string, vs: seq<Json>)
    requires key !in Fields(d)
    ensures |vs| == 0 ==> PushAll(d, key, vs) == Success(d)
    ensures |vs| > 0 ==> PushAll(d, key, vs) == Success(Set(d, key, JArr(vs)))
  {
    if |vs| > 0 {
      var d' := Set(d, key, JArr([vs[0]]));
      PushAllOntoArray(d', key, [vs[0]], vs[1..]);
      assert [vs[0]] + vs[1..] == vs;
      assert Set(d', key, JArr(vs)) == Set(d, key, JArr(vs));
    }
  }
}
