/**
  `NoCaseCmp`: case-insensitive equality of two C strings, either of which may
  be a null pointer (`None`). Case folding is `std::tolower` in the "C"
  locale: only the ASCII capitals change.
*/
module Tools {
  import opened Wrappers

  function ToLower(c: char): (r: char)
    ensures 'A' <= c <= 'Z' ==> 'a' <= r <= 'z' && r as int == c as int + 32
    ensures !('A' <= c <= 'Z') ==> r == c
  {
    if 'A' <= c <= 'Z' then (c as int + 32) as char else c
  }

  /** The whole string in lower case. */
  function Lower(s: string): (r: string)
    ensures |r| == |s|
    ensures forall i :: 0 <= i < |s| ==> r[i] == ToLower(s[i])
  {
    seq(|s|, i requires 0 <= i < |s| => ToLower(s[i]))
  }

  /** Reference meaning: two non-null strings whose lower-case forms are equal. */
  predicate SameIgnoringCase(s1: Option<string>, s2: Option<string>) {
    s1.Some? && s2.Some? && Lower(s1.value) == Lower(s2.value)
  }

  /** `NoCaseCmp(s1, s2)`: null on either side is false; otherwise equal length and equal position by position after `tolower`. */
  method NoCaseCmp(s1: Option<string>, s2: Option<string>) returns (b: bool)
    ensures b <==> SameIgnoringCase(s1, s2)
  {
    if s1.None? || s2.None? {
      return false;
    }
    var a, c := s1.value, s2.value;
    if |a| != |c| {
      assert |Lower(a)| != |Lower(c)|;
      return false;
    }
    var i := 0;
    while i < |a|
      invariant 0 <= i <= |a|
      invariant forall k :: 0 <= k < i ==> ToLower(a[k]) == ToLower(c[k])
    {
      if ToLower(a[i]) != ToLower(c[i]) {
        assert Lower(a)[i] != Lower(c)[i];
        return false;
      }
      i := i + 1;
    }
    assert Lower(a) == Lower(c);
    return true;
  }

  lemma NullNeverEqual(s: Option<string>)
    ensures !SameIgnoringCase(None, s) && !SameIgnoringCase(s, None)
  {
  }

  lemma DifferentLengthsDiffer(s1: string, s2: string)
    requires |s1| != |s2|
    ensures !SameIgnoringCase(Some(s1), Some(s2))
  {
    assert |Lower(s1)| != |Lower(s2)|;
  }

  /** A position whose letters differ after folding makes the strings differ. */
  lemma DifferingPositionDiffers(s1: string, s2: string, i: nat)
    requires i < |s1| && i < |s2|
    requires ToLower(s1[i]) != ToLower(s2[i])
    ensures !SameIgnoringCase(Some(s1), Some(s2))
  {
    assert Lower(s1)[i] != Lower(s2)[i];
  }

  lemma Reflexive(s: string)
    ensures SameIgnoringCase(Some(s), Some(s))
  {
  }

  lemma Symmetric(s1: Option<string>, s2: Option<string>)
    ensures SameIgnoringCase(s1, s2) <==> SameIgnoringCase(s2, s1)
  {
  }

  lemma Transitive(s1: Option<string>, s2: Option<string>, s3: Option<string>)
    requires SameIgnoringCase(s1, s2) && SameIgnoringCase(s2, s3)
    ensures SameIgnoringCase(s1, s3)
  {
  }

  /** The unit-test table: mixed-case spellings match, prefixes and other words do not. */
  lemma TestVectors()
    ensures SameIgnoringCase(Some("red"), Some("RED"))
    ensures SameIgnoringCase(Some("rEd"), Some("Red"))
    ensures !SameIgnoringCase(Some("read"), Some("rea"))
    ensures SameIgnoringCase(Some("RED"), Some("red"))
    ensures SameIgnoringCase(Some("red"), Some("red"))
    ensures SameIgnoringCase(Some("RED"), Some("RED"))
    ensures !SameIgnoringCase(Some("RED"), Some("REDDER"))
    ensures !SameIgnoringCase(Some("yellow"), Some("purple"))
  {
    assert Lower("red") == "red" == Lower("RED");
    assert Lower("rEd") == "red" == Lower("Red");
    DifferentLengthsDiffer("read", "rea");
    DifferentLengthsDiffer("RED", "REDDER");
    DifferingPositionDiffers("yellow", "purple", 0);
  }
}
