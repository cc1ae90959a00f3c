/**
  Positional numerals: the decimal text that `std::to_string`, `std::format("{}")`
  and JavaScript template literals produce for integers, the upper-case
  hexadecimal text of `std::format("{:X}")`, and the parsers that read them
  back.
*/
module Numerals {
  import opened Wrappers

  const DecimalAlphabet: string := "0123456789"
  const HexAlphabet: string := "0123456789ABCDEF"

  /** An alphabet of at least two distinct digit characters. */
  predicate ValidAlphabet(alpha: string) {
    && |alpha| >= 2
    && forall i, j :: 0 <= i < j < |alpha| ==> alpha[i] != alpha[j]
  }

  predicate AllIn(s: string, alpha: string) {
    forall i :: 0 <= i < |s| ==> s[i] in alpha
  }

  /** Most-significant-digit-first representation of `n`, without leading zeros. */
  function FormatNat(n: nat, alpha: string): (s: string)
    requires ValidAlphabet(alpha)
    ensures |s| >= 1
    ensures AllIn(s, alpha)
    ensures |s| > 1 ==> s[0] != alpha[0]
    ensures n < |alpha| <==> |s| == 1
    decreases n
  {
    if n < |alpha| then [alpha[n]]
    else
      DivideByBase(n, |alpha|);
      var front := FormatNat(n / |alpha|, alpha);
      assert |front| == 1 ==> front[0] == alpha[n / |alpha|] && 0 < n / |alpha|;
      front + [alpha[n % |alpha|]]
  }

  /** Position of the first occurrence of `c` in `alpha`. */
  function IndexOf(alpha: string, c: char): (k: nat)
    requires c in alpha
    ensures k < |alpha| && alpha[k] == c
    ensures forall j :: 0 <= j < k ==> alpha[j] != c
  {
    if alpha[0] == c then 0 else 1 + IndexOf(alpha[1..], c)
  }

  /** The number a digit string denotes. */
  function DigitsValue(s: string, alpha: string): nat
    requires AllIn(s, alpha)
  {
    if |s| == 0 then 0
    else DigitsValue(s[..|s| - 1], alpha) * |alpha| + IndexOf(alpha, s[|s| - 1])
  }

  /** Reads a non-empty digit string; anything else is not a numeral. */
  function ParseNat(s: string, alpha: string): Option<nat> {
    if |s| > 0 && AllIn(s, alpha) then Some(DigitsValue(s, alpha)) else None
  }

  lemma IndexOfDigit(alpha: string, k: nat)
    requires ValidAlphabet(alpha)
    requires k < |alpha|
    ensures IndexOf(alpha, alpha[k]) == k
  {
  }

  lemma DivideByBase(n: nat, b: nat)
    requires b >= 2 && n >= b
    ensures 0 < n / b < n
    ensures (n / b) * b + n % b == n
  {
    var q, r := n / b, n % b;
    assert q * b + r == n;
    assert q < n by {
      var extra: nat := b - 2;
      assert q * b == q * extra + 2 * q;
      assert q * extra >= 0;
    }
  }

  /** Reading back a formatted number gives the number. */
  lemma {:induction false} FormatNatValue(n: nat, alpha: string)
    requires ValidAlphabet(alpha)
    ensures DigitsValue(FormatNat(n, alpha), alpha) == n
    decreases n
  {
    var b := |alpha|;
    var s := FormatNat(n, alpha);
    if n < b {
      IndexOfDigit(alpha, n);
      assert s[..0] == [];
    } else {
      DivideByBase(n, b);
      var front := FormatNat(n / b, alpha);
      assert s == front + [alpha[n % b]];
      assert s[..|s| - 1] == front;
      FormatNatValue(n / b, alpha);
      IndexOfDigit(alpha, n % b);
      assert DigitsValue(s, alpha) == DigitsValue(front, alpha) * b + IndexOf(alpha, alpha[n % b]);
    }
  }

  lemma FormatNatRoundTrip(n: nat, alpha: string)
    requires ValidAlphabet(alpha)
    ensures ParseNat(FormatNat(n, alpha), alpha) == Some(n)
  {
    FormatNatValue(n, alpha);
  }

  /** Decimal text of a natural number, as `std::to_string` writes it. */
  function NatToString(n: nat): (s: string)
    ensures |s| >= 1 && AllIn(s, DecimalAlphabet)
    ensures ParseNat(s, DecimalAlphabet) == Some(n)
  {
    FormatNatRoundTrip(n, DecimalAlphabet);
    FormatNat(n, DecimalAlphabet)
  }

  /** Decimal text of an integer, with a leading '-' when negative. */
  function IntToString(i: int): (s: string)
    ensures |s| >= 1
    ensures i < 0 <==> s[0] == '-'
    ensures ParseInt(s) == Some(i)
  {
    if i < 0 then "-" + NatToString(-i) else NatToString(i)
  }

  /** Inverse of `IntToString`: an optional '-' followed by decimal digits. */
  function ParseInt(s: string): Option<int> {
    if |s| > 0 && s[0] == '-' then
      match ParseNat(s[1..], DecimalAlphabet)
      case Some(n) => if n == 0 then None else var m: int := n; Some(-m)
      case None => None
    else
      match ParseNat(s, DecimalAlphabet)
      case Some(n) => Some(n)
      case None => None
  }

  lemma IntToStringInjective(i: int, j: int)
    requires IntToString(i) == IntToString(j)
    ensures i == j
  {
    assert ParseInt(IntToString(i)) == ParseInt(IntToString(j));
  }

  /** Upper-case hexadecimal text of a natural number, as `{:X}` formats it. */
  function HexString(n: nat): (s: string)
    ensures |s| >= 1 && AllIn(s, HexAlphabet)
    ensures ParseNat(s, HexAlphabet) == Some(n)
  {
    FormatNatRoundTrip(n, HexAlphabet);
    FormatNat(n, HexAlphabet)
  }
}
