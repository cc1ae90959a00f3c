/**
  JavaScript's `Number(value)` applied to a query parameter (`ToNumber`,
  section 7.1.4 of ECMA-262, with `StringToNumber` of section 7.1.4.1.1),
  restricted to the integer forms: surrounding white space is ignored, an
  empty text is 0, a decimal integer may carry a sign, and `0x`, `0o` and `0b`
  introduce hexadecimal, octal and binary integers. `Number(null)` is 0.
*/
module JsNumber {
  import opened Wrappers
  import opened Numerals

  /** A Number value: not-a-number, or an integer. */
  datatype Number = NaN | Int(value: int)

  /** `StrWhiteSpaceChar`: the `WhiteSpace` and `LineTerminator` code points. */
  predicate IsWhiteSpace(c: char) {
    // TAB, VT, FF, SP, NBSP, ZWNBSP
    || c == '\t' || c == '\U{000B}' || c == '\U{000C}' || c == ' ' || c == '\U{00A0}' || c == '\U{FEFF}'
    // the other space separators (category Zs)
    || c == '\U{1680}' || ('\U{2000}' <= c <= '\U{200A}') || c == '\U{202F}' || c == '\U{205F}' || c == '\U{3000}'
    // LF, CR, LS, PS
    || c == '\n' || c == '\r' || c == '\U{2028}' || c == '\U{2029}'
  }

  predicate AllWhiteSpace(s: string) {
    forall i :: 0 <= i < |s| ==> IsWhiteSpace(s[i])
  }

  /** The length of the leading white space. */
  function LeadingWhiteSpace(s: string): (k: nat)
    ensures k <= |s|
    ensures forall i :: 0 <= i < k ==> IsWhiteSpace(s[i])
    ensures k < |s| ==> !IsWhiteSpace(s[k])
  {
    if |s| == 0 || !IsWhiteSpace(s[0]) then 0 else 1 + LeadingWhiteSpace(s[1..])
  }

  /** The length of the trailing white space. */
  function TrailingWhiteSpace(s: string): (k: nat)
    ensures k <= |s|
    ensures forall i :: |s| - k <= i < |s| ==> IsWhiteSpace(s[i])
    ensures k < |s| ==> !IsWhiteSpace(s[|s| - k - 1])
  {
    if |s| == 0 || !IsWhiteSpace(s[|s| - 1]) then 0 else 1 + TrailingWhiteSpace(s[..|s| - 1])
  }

  /** The text with the white space at both ends removed. */
  function Trim(s: string): string {
    var t := s[LeadingWhiteSpace(s)..];
    t[..|t| - TrailingWhiteSpace(t)]
  }

  /** The value of a digit in bases up to 16, either case. */
  function DigitValue(c: char): (r: Option<nat>)
    ensures r.Some? ==> r.value < 16
  {
    if '0' <= c <= '9' then Some(c as int - '0' as int)
    else if 'a' <= c <= 'f' then Some(c as int - 'a' as int + 10)
    else if 'A' <= c <= 'F' then Some(c as int - 'A' as int + 10)
    else None
  }

  predicate IsDigitIn(c: char, base: nat) {
    DigitValue(c).Some? && DigitValue(c).value < base
  }

  /** The value of a digit string in the given base, most significant digit first. */
  function RadixValue(s: string, base: nat): nat
    requires forall i :: 0 <= i < |s| ==> IsDigitIn(s[i], base)
  {
    if |s| == 0 then 0
    else
      var front := s[..|s| - 1];
      assert forall i :: 0 <= i < |front| ==> front[i] == s[i];
      var last := s[|s| - 1];
      assert IsDigitIn(last, base);
      var high := RadixValue(front, base);
      NatProduct(high, base);
      high * base + DigitValue(last).value
  }

  lemma NatProduct(a: nat, b: nat)
    ensures a * b >= 0
  {
  }

  /** A non-empty digit string in the base, or nothing. */
  function ParseRadix(s: string, base: nat): Option<nat> {
    if |s| > 0 && forall i :: 0 <= i < |s| ==> IsDigitIn(s[i], base) then Some(RadixValue(s, base)) else None
  }

  /** The base a `NonDecimalIntegerLiteral` prefix selects, if `s` starts with one. */
  function RadixPrefix(s: string): (r: Option<nat>)
    ensures r.Some? ==> |s| >= 2 && s[0] == '0'
  {
    if |s| < 2 || s[0] != '0' then None
    else if s[1] == 'x' || s[1] == 'X' then Some(16)
    else if s[1] == 'o' || s[1] == 'O' then Some(8)
    else if s[1] == 'b' || s[1] == 'B' then Some(2)
    else None
  }

  /** `StrDecimalLiteral` restricted to integers: an optional sign and decimal digits. */
  function ParseSignedDecimal(s: string): (r: Number) {
    if |s| > 0 && (s[0] == '+' || s[0] == '-') then
      match ParseNat(s[1..], DecimalAlphabet)
      case None => NaN
      case Some(n) => if s[0] == '-' then Int(-(n as int)) else Int(n)
    else
      match ParseNat(s, DecimalAlphabet)
      case None => NaN
      case Some(n) => Int(n)
  }

  /** `StringToNumber`. */
  function StringToNumber(s: string): (r: Number)
    ensures AllWhiteSpace(s) ==> r == Int(0)
  {
    var text := Trim(s);
    if text == "" then Int(0)
    else
      match RadixPrefix(text)
      case Some(base) =>
        (match ParseRadix(text[2..], base)
         case Some(n) => Int(n)
         case None => NaN)
      case None => ParseSignedDecimal(text)
  }

  /** `Number(urlParams.get(name))`: a missing parameter is `null`, which is 0. */
  function ParamToNumber(param: Option<string>): (r: Number)
    ensures param.None? ==> r == Int(0)
  {
    match param
    case None => Int(0)
    case Some(s) => StringToNumber(s)
  }

  /** `Number(param) || fallback`: `NaN` and 0 are falsy and give the fallback. */
  function NumberOr(param: Option<string>, fallback: int): (r: int)
    ensures fallback != 0 ==> r != 0
    ensures r == fallback || ParamToNumber(param) == Int(r)
  {
    match ParamToNumber(param)
    case NaN => fallback
    case Int(i) => if i == 0 then fallback else i
  }

  /** Text without white space at either end trims to itself, whatever white space surrounds it. */
  lemma TrimPadded(ws1: string, core: string, ws2: string)
    requires AllWhiteSpace(ws1) && AllWhiteSpace(ws2)
    requires |core| > 0 && !IsWhiteSpace(core[0]) && !IsWhiteSpace(core[|core| - 1])
    ensures Trim(ws1 + core + ws2) == core
  {
    var s := ws1 + core + ws2;
    assert s == ws1 + (core + ws2);
    LeadingSkips(ws1, core + ws2);
    assert s[|ws1|..] == core + ws2;
    TrailingSkips(core, ws2);
    assert (core + ws2)[..|core|] == core;
  }

  lemma {:induction false} LeadingSkips(ws: string, t: string)
    requires AllWhiteSpace(ws) && |t| > 0 && !IsWhiteSpace(t[0])
    ensures LeadingWhiteSpace(ws + t) == |ws|
    decreases |ws|
  {
    if |ws| > 0 {
      assert (ws + t)[1..] == ws[1..] + t;
      LeadingSkips(ws[1..], t);
    } else {
      assert ws + t == t;
    }
  }

  lemma {:induction false} TrailingSkips(t: string, ws: string)
    requires AllWhiteSpace(ws) && |t| > 0 && !IsWhiteSpace(t[|t| - 1])
    ensures TrailingWhiteSpace(t + ws) == |ws|
    decreases |ws|
  {
    if |ws| > 0 {
      assert (t + ws)[..|t + ws| - 1] == t + ws[..|ws| - 1];
      TrailingSkips(t, ws[..|ws| - 1]);
    } else {
      assert t + ws == t;
    }
  }

  /** Digits and the minus sign are not white space. */
  lemma NumeralCharNotWhiteSpace(c: char)
    requires c in DecimalAlphabet || c == '-'
    ensures !IsWhiteSpace(c)
  {
  }

  /** The decimal text a template literal writes for an integer reads back as that integer. */
  lemma StringToNumberIntText(i: int)
    ensures StringToNumber(IntToString(i)) == Int(i)
  {
    var s := IntToString(i);
    IntTextHasNoWhiteSpaceEnds(i);
    assert "" + s + "" == s;
    TrimPadded("", s, "");
    ParseSignedDecimalIntText(i);
  }

  lemma ParseSignedDecimalIntText(i: int)
    ensures ParseSignedDecimal(IntToString(i)) == Int(i)
  {
    var s := IntToString(i);
    if i < 0 {
      assert s[1..] == NatToString(-i);
    } else {
      assert s[0] in DecimalAlphabet;
    }
  }

  lemma IntTextHasNoWhiteSpaceEnds(i: int)
    ensures !IsWhiteSpace(IntToString(i)[0])
    ensures !IsWhiteSpace(IntToString(i)[|IntToString(i)| - 1])
    ensures RadixPrefix(IntToString(i)).None?
  {
    var s := IntToString(i);
    var digits := if i < 0 then NatToString(-i) else NatToString(i);
    assert digits[|digits| - 1] in DecimalAlphabet;
    assert s[|s| - 1] == digits[|digits| - 1];
    NumeralCharNotWhiteSpace(s[|s| - 1]);
    assert s[0] == '-' || s[0] == digits[0];
    assert digits[0] in DecimalAlphabet;
    NumeralCharNotWhiteSpace(s[0]);
    assert s[0] == '-' || |s| == 1 || s[0] != '0';
  }

  /**
    The fallback rule for a query parameter: missing, blank, not a number or
    zero gives the fallback; any other integer, negative ones included, is
    kept. Surrounding white space plays no part.
  */
  lemma NumberOrCases(ws1: string, i: int, ws2: string, fallback: int)
    requires AllWhiteSpace(ws1) && AllWhiteSpace(ws2)
    ensures NumberOr(None, fallback) == fallback
    ensures NumberOr(Some(ws1), fallback) == fallback
    ensures NumberOr(Some(ws1 + IntToString(i) + ws2), fallback) == if i == 0 then fallback else i
  {
    IntTextHasNoWhiteSpaceEnds(i);
    TrimPadded(ws1, IntToString(i), ws2);
    ParseSignedDecimalIntText(i);
  }

  /** Text that is not a numeral in any form gives the fallback. */
  lemma NotANumberFallsBack(s: string, fallback: int)
    requires StringToNumber(s) == NaN
    ensures NumberOr(Some(s), fallback) == fallback
  {
  }
}
