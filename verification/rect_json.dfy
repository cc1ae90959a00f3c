/**
  `cv::Rect` and its JSON conversion (`to_json` / `from_json`), the form in
  which the Home Assistant handlers report regions of interest.
*/
module RectJson {
  import opened Wrappers
  import opened Json

  const TwoTo31: int := 0x8000_0000
  const TwoTo32: int := 0x1_0000_0000

  /** A C++ `int` (32 bits). */
  type Int32 = x: int | -TwoTo31 <= x < TwoTo31

  /** A region of interest: position and size in pixels. */
  datatype Rect = Rect(x: Int32, y: Int32, width: Int32, height: Int32)

  /** `static_cast<int>` of a JSON integer: reduction modulo 2^32 into the `int` range. */
  function WrapInt32(n: int): (r: Int32)
    ensures (r - n) % TwoTo32 == 0
    ensures -TwoTo31 <= n < TwoTo31 ==> r == n
  {
    (n + TwoTo31) % TwoTo32 - TwoTo31
  }

  /** `j.get<int>()`: integers are narrowed, booleans become 0 or 1, anything else throws. */
  function GetInt(j: Json): (r: Result<Int32, JsonError>)
    ensures r.Success? <==> j.JInt? || j.JBool?
  {
    match j
    case JInt(i) => Success(WrapInt32(i))
    case JBool(b) => Success(if b then 1 else 0)
    case _ => Failure(TypeError)
  }

  /** `j.at(key).get<int>()`. */
  function AtInt(j: Json, key: string): (r: Result<Int32, JsonError>)
    ensures r.Success? ==> j.JObj? && key in j.fields
    ensures j.JObj? && key !in j.fields ==> r == Failure(OutOfRange)
  {
    if !j.JObj? then Failure(TypeError)
    else if key !in j.fields then Failure(OutOfRange)
    else GetInt(j.fields[key])
  }

  /** `to_json(j, rect)`. */
  function RectToJson(r: Rect): (j: Json)
    ensures j.JObj?
    ensures j.fields.Keys == {"x", "y", "width", "height"}
    ensures j.fields["x"] == JInt(r.x) && j.fields["y"] == JInt(r.y)
    ensures j.fields["width"] == JInt(r.width) && j.fields["height"] == JInt(r.height)
  {
    JObj(map["x" := JInt(r.x), "y" := JInt(r.y), "width" := JInt(r.width), "height" := JInt(r.height)])
  }

  /** `from_json(j, rect)`: reads the four members in order; the first failure is raised. */
  function RectFromJson(j: Json): (r: Result<Rect, JsonError>)
    ensures r.Success? ==> j.JObj? && {"x", "y", "width", "height"} <= j.fields.Keys
    ensures j.JObj? && !({"x", "y", "width", "height"} <= j.fields.Keys) ==> r.Failure?
  {
    var x :- AtInt(j, "x");
    var y :- AtInt(j, "y");
    var width :- AtInt(j, "width");
    var height :- AtInt(j, "height");
    Success(Rect(x, y, width, height))
  }

  /** Reading back a written rectangle gives the same rectangle. */
  lemma RectRoundTrip(r: Rect)
    ensures RectFromJson(RectToJson(r)) == Success(r)
  {
  }

  /**
    Members other than the four coordinates play no part in `from_json`: two
    objects that agree on those members read the same.
  */
  lemma RectFromJsonIgnoresExtraKeys(m1: map<string, Json>, m2: map<string, Json>)
    requires forall k :: k in {"x", "y", "width", "height"} ==>
      (k in m1 <==> k in m2) && (k in m1 ==> m1[k] == m2[k])
    ensures RectFromJson(JObj(m1)) == RectFromJson(JObj(m2))
  {
    assert "x" in {"x", "y", "width", "height"};
    assert "y" in {"x", "y", "width", "height"};
    assert "width" in {"x", "y", "width", "height"};
    assert "height" in {"x", "y", "width", "height"};
  }
}
