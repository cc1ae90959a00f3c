/**
  A `URLSearchParams` object as its list of name-value pairs (section 6.2 of
  the WHATWG URL Standard), with the `get` and `set` operations the web UI
  scripts use. Parsing from and serialising to URL text are outside the model.
*/
module SearchParams {
  import opened Wrappers

  type Query = seq<(string, string)>

  /** `params.get(name)`: the value of the first pair with that name, or `null`. */
  function Get(q: Query, name: string): (r: Option<string>)
    ensures r.Some? <==> exists i :: 0 <= i < |q| && q[i].0 == name
    ensures r.Some? ==> exists i :: 0 <= i < |q| && q[i] == (name, r.value) && forall j :: 0 <= j < i ==> q[j].0 != name
  {
    if |q| == 0 then None
    else if q[0].0 == name then Some(q[0].1)
    else
      var r := Get(q[1..], name);
      assert forall i :: 0 <= i < |q| - 1 ==> q[1..][i] == q[i + 1];
      assert q[0].0 != name && (forall i :: 1 <= i < |q| ==> q[i] == q[1..][i - 1]);
      if r.Some? then
        var i :| 0 <= i < |q| - 1 && q[1..][i] == (name, r.value) && forall j :: 0 <= j < i ==> q[1..][j].0 != name;
        assert q[i + 1] == (name, r.value) && forall j :: 0 <= j < i + 1 ==> q[j].0 != name;
        r
      else r
  }

  /** The pairs whose name is not `name`, in order. */
  function Without(q: Query, name: string): (r: Query)
    ensures |r| <= |q|
    ensures forall i :: 0 <= i < |r| ==> r[i].0 != name
  {
    if |q| == 0 then []
    else if q[0].0 == name then Without(q[1..], name)
    else [q[0]] + Without(q[1..], name)
  }

  /** Replaces the first pair named `name` with `(name, value)` and drops the later ones. */
  function ReplaceFirst(q: Query, name: string, value: string): Query {
    if |q| == 0 then []
    else if q[0].0 == name then [(name, value)] + Without(q[1..], name)
    else [q[0]] + ReplaceFirst(q[1..], name, value)
  }

  predicate Has(q: Query, name: string) {
    exists i :: 0 <= i < |q| && q[i].0 == name
  }

  /**
    `params.set(name, value)`: when a pair with the name exists, the first
    such pair takes the value and the others are removed; otherwise the pair
    is appended.
  */
  function SetParam(q: Query, name: string, value: string): (r: Query) {
    if Has(q, name) then ReplaceFirst(q, name, value) else q + [(name, value)]
  }

  /** How many pairs carry the name. */
  function Count(q: Query, name: string): nat {
    if |q| == 0 then 0 else (if q[0].0 == name then 1 else 0) + Count(q[1..], name)
  }

  lemma {:induction false} WithoutGet(q: Query, name: string, other: string)
    requires other != name
    ensures Get(Without(q, name), other) == Get(q, other)
    ensures Count(Without(q, name), name) == 0
    ensures Without(Without(q, name), name) == Without(q, name)
    decreases |q|
  {
    if |q| > 0 {
      WithoutGet(q[1..], name, other);
    }
  }

  lemma {:induction false} ReplaceFirstFacts(q: Query, name: string, value: string, other: string)
    requires Has(q, name) && other != name
    ensures Get(ReplaceFirst(q, name, value), name) == Some(value)
    ensures Get(ReplaceFirst(q, name, value), other) == Get(q, other)
    ensures Count(ReplaceFirst(q, name, value), name) == 1
    ensures Without(ReplaceFirst(q, name, value), name) == Without(q, name)
    decreases |q|
  {
    if q[0].0 == name {
      WithoutGet(q[1..], name, other);
    } else {
      var k :| 0 <= k < |q| && q[k].0 == name;
      assert q[1..][k - 1].0 == name;
      ReplaceFirstFacts(q[1..], name, value, other);
    }
  }

  lemma {:induction false} AppendFacts(q: Query, name: string, value: string, other: string)
    requires !Has(q, name) && other != name
    ensures Get(q + [(name, value)], name) == Some(value)
    ensures Get(q + [(name, value)], other) == Get(q, other)
    ensures Count(q + [(name, value)], name) == 1
    ensures Without(q + [(name, value)], name) == Without(q, name)
    decreases |q|
  {
    if |q| == 0 {
      assert [(name, value)][1..] == [];
    } else {
      assert (q + [(name, value)])[1..] == q[1..] + [(name, value)];
      assert !Has(q[1..], name) by {
        forall i | 0 <= i < |q[1..]| ensures q[1..][i].0 != name {
          assert q[1..][i] == q[i + 1];
        }
      }
      AppendFacts(q[1..], name, value, other);
    }
  }

  /**
    After `set`, reading the name gives the new value, the name occurs exactly
    once, every other name reads as before, and the other pairs keep their
    order.
  */
  lemma SetParamFacts(q: Query, name: string, value: string, other: string)
    requires other != name
    ensures Get(SetParam(q, name, value), name) == Some(value)
    ensures Get(SetParam(q, name, value), other) == Get(q, other)
    ensures Count(SetParam(q, name, value), name) == 1
    ensures Without(SetParam(q, name, value), name) == Without(q, name)
  {
    if Has(q, name) {
      ReplaceFirstFacts(q, name, value, other);
    } else {
      AppendFacts(q, name, value, other);
    }
  }

  /** When the name occurs once, replacing its first pair overwrites just that pair. */
  lemma {:induction false} SetOnceIsReplace(q: Query, name: string, value: string)
    requires Has(q, name) && Count(q, name) == 1
    ensures ReplaceFirst(q, name, value) == q[FirstPosition(q, name) := (name, value)]
    decreases |q|
  {
    if q[0].0 == name {
      OnlyOnce(q[1..], name);
    } else {
      var k :| 0 <= k < |q| && q[k].0 == name;
      assert q[1..][k - 1].0 == name;
      SetOnceIsReplace(q[1..], name, value);
      var p := FirstPosition(q[1..], name);
      assert FirstPosition(q, name) == 1 + p;
      assert ReplaceFirst(q, name, value) == [q[0]] + q[1..][p := (name, value)];
    }
  }

  lemma {:induction false} OnlyOnce(q: Query, name: string)
    requires Count(q, name) == 0
    ensures Without(q, name) == q
    decreases |q|
  {
    if |q| > 0 {
      OnlyOnce(q[1..], name);
    }
  }

  /** The position of the first pair with the name. */
  function FirstPosition(q: Query, name: string): (k: nat)
    requires Has(q, name)
    ensures k < |q| && q[k].0 == name
    ensures forall j :: 0 <= j < k ==> q[j].0 != name
  {
    if q[0].0 == name then 0
    else
      var k :| 0 <= k < |q| && q[k].0 == name;
      assert q[1..][k - 1].0 == name;
      1 + FirstPosition(q[1..], name)
  }

  /** Setting the same value twice is setting it once. */
  lemma SetParamIdempotent(q: Query, name: string, value: string)
    ensures SetParam(SetParam(q, name, value), name, value) == SetParam(q, name, value)
  {
    var q1 := SetParam(q, name, value);
    SetParamFacts(q, name, value, name + "'");
    assert Has(q1, name);
    SetOnceIsReplace(q1, name, value);
    var k := FirstPosition(q1, name);
    assert Get(q1, name) == Some(value);
    FirstPositionValue(q1, name);
    assert q1[k] == (name, value);
  }

  /** The first pair with the name is the one `get` reads. */
  lemma {:induction false} FirstPositionValue(q: Query, name: string)
    requires Has(q, name)
    ensures Get(q, name) == Some(q[FirstPosition(q, name)].1)
    decreases |q|
  {
    if q[0].0 != name {
      var k :| 0 <= k < |q| && q[k].0 == name;
      assert q[1..][k - 1].0 == name;
      FirstPositionValue(q[1..], name);
    }
  }
}
