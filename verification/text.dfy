/**
  String helpers shared by the model: prefix and suffix tests
  (`starts_with`/`endsWith`), the last path segment (JavaScript's
  `s.split("/").pop()`), and joining a list with a separator together with the
  split that undoes it.
*/
module Text {

  predicate StartsWith(s: string, prefix: string) {
    |prefix| <= |s| && s[..|prefix|] == prefix
  }

  predicate EndsWith(s: string, suffix: string) {
    |suffix| <= |s| && s[|s| - |suffix|..] == suffix
  }

  /**
    The text after the last `sep` in `s`, or all of `s` when `sep` does not
    occur: the last element of `s.split(sep)`.
  */
  function LastSegment(s: string, sep: char): (r: string)
    ensures EndsWith(s, r)
    ensures sep !in r
    ensures |r| < |s| ==> s[|s| - |r| - 1] == sep
  {
    if |s| == 0 || s[|s| - 1] == sep then ""
    else
      var front := s[..|s| - 1];
      var r := LastSegment(front, sep) + [s[|s| - 1]];
      assert s == front + [s[|s| - 1]];
      r
  }

  /** Position of the first `c` in `s`. */
  function FirstIndex(s: string, c: char): (k: nat)
    requires c in s
    ensures k < |s| && s[k] == c
    ensures c !in s[..k]
  {
    if s[0] == c then 0
    else
      var k := 1 + FirstIndex(s[1..], c);
      assert s[..k] == [s[0]] + s[1..][..k - 1];
      k
  }

  /** When `a` lacks `c` and `b` starts with it, the first `c` of `a + b` is where `b` starts. */
  lemma {:induction false} FirstIndexAfter(a: string, b: string, c: char)
    requires c !in a
    requires |b| > 0 && b[0] == c
    ensures c in a + b && FirstIndex(a + b, c) == |a|
    decreases |a|
  {
    assert (a + b)[|a|] == c;
    if |a| > 0 {
      FirstIndexAfter(a[1..], b, c);
      assert (a + b)[1..] == a[1..] + b;
    }
  }

  /** `xs[0] + sep + xs[1] + sep + ...`, with no separator after the last item. */
  function Join(xs: seq<string>, sep: string): string {
    if |xs| == 0 then ""
    else if |xs| == 1 then xs[0]
    else xs[0] + sep + Join(xs[1..], sep)
  }

  /** The items `Join(_, ", ")` was built from, when no item contains a comma. */
  function SplitCommaSpace(s: string): seq<string>
    decreases |s|
  {
    if ',' !in s then [s]
    else
      var i := FirstIndex(s, ',');
      if i + 1 < |s| && s[i + 1] == ' ' then [s[..i]] + SplitCommaSpace(s[i + 2..])
      else [s]
  }

  /** Splitting `x, rest` when `x` has no comma takes `x` off the front. */
  lemma SplitStep(x: string, rest: string)
    requires ',' !in x
    ensures SplitCommaSpace(x + ", " + rest) == [x] + SplitCommaSpace(rest)
  {
    var s := x + ", " + rest;
    assert s == x + (", " + rest);
    FirstIndexAfter(x, ", " + rest, ',');
    assert s[|x| + 1] == ' ';
    assert s[..|x|] == x;
    assert s[|x| + 2..] == rest;
  }

  predicate CommaFree(xs: seq<string>) {
    forall i :: 0 <= i < |xs| ==> ',' !in xs[i]
  }

  lemma CommaFreeTail(xs: seq<string>)
    requires |xs| >= 1 && CommaFree(xs)
    ensures ',' !in xs[0] && CommaFree(xs[1..])
  {
    assert forall k :: 0 <= k < |xs[1..]| ==> xs[1..][k] == xs[k + 1];
  }

  /** Splitting a comma-free list joined with ", " gives back the list. */
  lemma {:induction false} SplitJoinCommaSpace(xs: seq<string>)
    requires |xs| >= 1
    requires CommaFree(xs)
    ensures SplitCommaSpace(Join(xs, ", ")) == xs
  {
    CommaFreeTail(xs);
    if |xs| > 1 {
      var rest := Join(xs[1..], ", ");
      assert Join(xs, ", ") == xs[0] + ", " + rest;
      SplitStep(xs[0], rest);
      SplitJoinCommaSpace(xs[1..]);
      assert [xs[0]] + xs[1..] == xs;
    }
  }
}
