/**
  `Array.prototype.sort` without a comparator (section 23.1.3.30 of
  ECMA-262): elements are ordered by their string conversions, compared code
  unit by code unit, and the sort is stable. Each element is paired with its
  string conversion as the key.
*/
module StableSort {

  /** `IsLessThan` on strings, or equality: lexicographic order of code units. */
  predicate KeyLe(a: string, b: string) {
    if |a| == 0 then true
    else if |b| == 0 then false
    else if a[0] != b[0] then a[0] < b[0]
    else KeyLe(a[1..], b[1..])
  }

  lemma {:induction false} KeyLeReflexive(a: string)
    ensures KeyLe(a, a)
    decreases |a|
  {
    if |a| > 0 {
      KeyLeReflexive(a[1..]);
    }
  }

  lemma {:induction false} KeyLeTotal(a: string, b: string)
    ensures KeyLe(a, b) || KeyLe(b, a)
    decreases |a|
  {
    if |a| > 0 && |b| > 0 && a[0] == b[0] {
      KeyLeTotal(a[1..], b[1..]);
    }
  }

  lemma {:induction false} KeyLeTransitive(a: string, b: string, c: string)
    requires KeyLe(a, b) && KeyLe(b, c)
    ensures KeyLe(a, c)
    decreases |a|
  {
    if |a| > 0 && |b| > 0 && |c| > 0 && a[0] == b[0] && b[0] == c[0] {
      KeyLeTransitive(a[1..], b[1..], c[1..]);
    }
  }

  predicate Sorted<T>(s: seq<(string, T)>) {
    forall i, j :: 0 <= i < j < |s| ==> KeyLe(s[i].0, s[j].0)
  }

  /**
    Inserts `x` into a sorted sequence after every element whose key is not
    greater than its own, so that equal keys keep their arrival order.
  */
  function Insert<T(==)>(s: seq<(string, T)>, x: (string, T)): (r: seq<(string, T)>)
    requires Sorted(s)
    ensures Sorted(r)
    ensures multiset(r) == multiset(s) + multiset{x}
    ensures |r| == |s| + 1
  {
    if |s| == 0 then [x]
    else
      var last := s[|s| - 1];
      if KeyLe(last.0, x.0) then
        InsertAtEnd(s, x);
        s + [x]
      else
        var front := s[..|s| - 1];
        assert s == front + [last];
        var r' := Insert(front, x);
        KeyLeTotal(last.0, x.0);
        InsertBelow(front, x, last, r');
        r' + [last]
  }

  lemma InsertAtEnd<T>(s: seq<(string, T)>, x: (string, T))
    requires Sorted(s) && |s| > 0 && KeyLe(s[|s| - 1].0, x.0)
    ensures Sorted(s + [x])
  {
    forall i | 0 <= i < |s| ensures KeyLe(s[i].0, x.0) {
      if i < |s| - 1 {
        KeyLeTransitive(s[i].0, s[|s| - 1].0, x.0);
      } else {
        assert s[i] == s[|s| - 1];
      }
    }
  }

  lemma InsertBelow<T>(front: seq<(string, T)>, x: (string, T), last: (string, T), r': seq<(string, T)>)
    requires Sorted(front + [last]) && Sorted(r') && KeyLe(x.0, last.0)
    requires multiset(r') == multiset(front) + multiset{x}
    ensures Sorted(r' + [last])
  {
    forall i | 0 <= i < |r'| ensures KeyLe(r'[i].0, last.0) {
      assert r'[i] in multiset(r');
      if r'[i] != x {
        assert r'[i] in multiset(front);
        var k :| 0 <= k < |front| && front[k] == r'[i];
        assert (front + [last])[k] == front[k];
        assert (front + [last])[|front|] == last;
      }
    }
  }

  /** Insertion sort, taking the elements in order. */
  function Sort<T(==)>(s: seq<(string, T)>): (r: seq<(string, T)>)
    ensures Sorted(r)
    ensures multiset(r) == multiset(s)
    ensures |r| == |s|
  {
    if |s| == 0 then []
    else
      var front := s[..|s| - 1];
      assert s == front + [s[|s| - 1]];
      Insert(Sort(front), s[|s| - 1])
  }

  /** Sorting a sorted sequence changes nothing: equal keys are never swapped. */
  lemma {:induction false} SortSortedIdentity<T>(s: seq<(string, T)>)
    requires Sorted(s)
    ensures Sort(s) == s
    decreases |s|
  {
    if |s| > 0 {
      var front := s[..|s| - 1];
      var x := s[|s| - 1];
      assert Sorted(front);
      SortSortedIdentity(front);
      assert Sort(s) == Insert(front, x);
      if |front| > 0 {
        assert front[|front| - 1] == s[|s| - 2];
        assert Insert(front, x) == front + [x];
      }
      assert s == front + [x];
    }
  }

  /** Elements whose keys are all equal are already sorted, so sorting keeps their order. */
  lemma SortEqualKeysIdentity<T>(s: seq<(string, T)>, key: string)
    requires forall i :: 0 <= i < |s| ==> s[i].0 == key
    ensures Sort(s) == s
  {
    KeyLeReflexive(key);
    SortSortedIdentity(s);
  }

  /** `Array.prototype.reverse`. */
  function Reverse<T>(s: seq<T>): (r: seq<T>)
    ensures |r| == |s|
    ensures forall i :: 0 <= i < |s| ==> r[i] == s[|s| - 1 - i]
  {
    if |s| == 0 then [] else [s[|s| - 1]] + Reverse(s[..|s| - 1])
  }

  lemma {:induction false} ReverseReverse<T>(s: seq<T>)
    ensures Reverse(Reverse(s)) == s
  {
    var r := Reverse(s);
    assert forall i :: 0 <= i < |s| ==> Reverse(r)[i] == r[|r| - 1 - i] == s[i];
  }
}
