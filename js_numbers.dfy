/**
 * The two conversions between integers and text that the core relies on:
 * `Number.prototype.toString()` for integral numbers (used by `id.toString()`
 * and by template literals) and the global `parseInt` called without a radix
 * (used for every player statistic).  Both follow the ECMAScript definitions;
 * numbers are mathematical integers here.
 */
module JsNumbers {
  import opened Wrappers

  /** The character of a decimal digit. */
  function DigitChar(d: nat): (c: char)
    requires d < 10
    ensures '0' <= c <= '9'
  {
    (('0' as int) + d) as char
  }

  /** The value of `c` as a digit of base 16 or lower (`0`-`9`, `a`-`f`, `A`-`F`). */
  function HexValue(c: char): Option<nat>
  {
    if '0' <= c <= '9' then Some((c as int) - ('0' as int))
    else if 'a' <= c <= 'f' then Some((c as int) - ('a' as int) + 10)
    else if 'A' <= c <= 'F' then Some((c as int) - ('A' as int) + 10)
    else None
  }

  /** `c` is a digit in the given radix (10 or 16 are the ones `parseInt` uses here). */
  predicate IsDigitIn(c: char, radix: nat)
  {
    HexValue(c).Some? && HexValue(c).value < radix
  }

  /** `Number.prototype.toString()` of a non-negative integer: its decimal digits. */
  function NatToDecimal(n: nat): (s: string)
    ensures |s| >= 1
    ensures forall i :: 0 <= i < |s| ==> IsDigitIn(s[i], 10)
    decreases n
  {
    if n < 10 then [DigitChar(n)] else NatToDecimal(n / 10) + [DigitChar(n % 10)]
  }

  /** `Number.prototype.toString()` of an integer, with a leading `-` when negative. */
  function IntToString(n: int): (s: string)
    ensures |s| >= 1
    ensures n < 0 <==> s[0] == '-'
  {
    if n < 0 then "-" + NatToDecimal(-n) else NatToDecimal(n)
  }

  /**
   * The characters `String.prototype.trimStart` and `parseInt` skip: WhiteSpace
   * (TAB, VT, FF, ZWNBSP and the Zs category) and LineTerminator.
   */
  predicate IsJsWhitespace(c: char)
  {
    || c == '\t' || c == '\U{000B}' || c == '\U{000C}' || c == ' ' || c == '\U{00A0}'
    || c == '\U{FEFF}' || c == '\U{1680}' || ('\U{2000}' <= c <= '\U{200A}')
    || c == '\U{202F}' || c == '\U{205F}' || c == '\U{3000}'
    || c == '\n' || c == '\r' || c == '\U{2028}' || c == '\U{2029}'
  }

  /** `s` without its leading whitespace. */
  function TrimStart(s: string): (r: string)
    ensures |r| <= |s| && r == s[|s| - |r|..]
    ensures forall i :: 0 <= i < |s| - |r| ==> IsJsWhitespace(s[i])
    ensures r == [] || !IsJsWhitespace(r[0])
  {
    if s != [] && IsJsWhitespace(s[0]) then TrimStart(s[1..]) else s
  }

  /** The length of the longest prefix of `s` made of digits of `radix`. */
  function DigitPrefixLength(s: string, radix: nat): (k: nat)
    ensures k <= |s|
    ensures forall i :: 0 <= i < k ==> IsDigitIn(s[i], radix)
    ensures k < |s| ==> !IsDigitIn(s[k], radix)
  {
    if s == [] || !IsDigitIn(s[0], radix) then 0 else 1 + DigitPrefixLength(s[1..], radix)
  }

  /** A product of naturals is a natural. */
  lemma MulNonNegative(a: nat, b: nat)
    ensures a * b >= 0
  {
  }

  /** The value of a string of digits of `radix`, most significant first. */
  function DigitsValue(s: string, radix: nat): nat
    requires forall i :: 0 <= i < |s| ==> IsDigitIn(s[i], radix)
  {
    if s == [] then 0
    else
      assert IsDigitIn(s[|s| - 1], radix);
      var rest := DigitsValue(s[..|s| - 1], radix);
      MulNonNegative(rest, radix);
      rest * radix + HexValue(s[|s| - 1]).value
  }

  /** The value of the longest digit prefix of `s`, or `None` when `s` starts with no digit. */
  function LeadingDigits(s: string, radix: nat): Option<nat>
  {
    var k := DigitPrefixLength(s, radix);
    if k == 0 then None
    else
      assert forall i :: 0 <= i < k ==> s[..k][i] == s[i];
      Some(DigitsValue(s[..k], radix))
  }

  /**
   * `parseInt(s)` with no radix argument; `None` stands for `NaN`.  Leading
   * whitespace is skipped, one sign is read, a `0x`/`0X` prefix switches to
   * base 16, and the longest prefix of digits is converted; no digit at all
   * gives `NaN`.
   */
  function ParseInt(s: string): (r: Option<int>)
    ensures r.Some? ==> var t := TrimStart(s); |t| > 0 && (t[0] == '-' || t[0] == '+' || IsDigitIn(t[0], 10))
    ensures r.Some? && r.value < 0 ==> TrimStart(s)[0] == '-'
  {
    var t := TrimStart(s);
    var sign := if |t| > 0 && t[0] == '-' then -1 else 1;
    var u := if |t| > 0 && (t[0] == '-' || t[0] == '+') then t[1..] else t;
    var hex := |u| >= 2 && u[0] == '0' && (u[1] == 'x' || u[1] == 'X');
    var radix := if hex then 16 else 10;
    var body := if hex then u[2..] else u;
    match LeadingDigits(body, radix)
    case None => None
    case Some(v) => Some(sign * v)
  }

  /** The decimal digits of `n` read back give `n`. */
  lemma {:induction false} DecimalValue(n: nat)
    ensures DigitsValue(NatToDecimal(n), 10) == n
    decreases n
  {
    var s := NatToDecimal(n);
    if n >= 10 {
      DecimalValue(n / 10);
      assert s[..|s| - 1] == NatToDecimal(n / 10);
    }
  }

  /** The decimal digits of `m` are read whole, in base 10, as `m`. */
  lemma DecimalDigitsParse(m: nat)
    ensures var u := NatToDecimal(m);
      !(|u| >= 2 && u[0] == '0' && (u[1] == 'x' || u[1] == 'X')) && LeadingDigits(u, 10) == Some(m)
  {
    var u := NatToDecimal(m);
    assert |u| >= 2 ==> IsDigitIn(u[1], 10);
    LeadingDigitsWhole(u, 10);
    DecimalValue(m);
  }

  /** A non-empty string of digits is read whole. */
  lemma LeadingDigitsWhole(s: string, radix: nat)
    requires s != [] && forall i :: 0 <= i < |s| ==> IsDigitIn(s[i], radix)
    ensures LeadingDigits(s, radix) == Some(DigitsValue(s, radix))
  {
    var k := DigitPrefixLength(s, radix);
    assert k == |s|;
    assert s[..k] == s;
  }

  /** `parseInt` inverts `toString` on every integer. */
  lemma ParseIntRoundTrip(n: int)
    ensures ParseInt(IntToString(n)) == Some(n)
  {
    var s := IntToString(n);
    var m: nat := if n < 0 then -n else n;
    assert IsDigitIn(NatToDecimal(m)[0], 10);
    assert !IsJsWhitespace(s[0]);
    assert TrimStart(s) == s;
    if n < 0 {
      assert s[1..] == NatToDecimal(m);
    }
    DecimalDigitsParse(m);
  }

  /** Text that starts with something other than whitespace, a sign or a digit parses to `NaN`. */
  lemma ParseIntNaN(s: string)
    requires |s| > 0 && !IsJsWhitespace(s[0]) && s[0] != '-' && s[0] != '+' && !IsDigitIn(s[0], 10)
    ensures ParseInt(s) == None
  {
    assert TrimStart(s) == s;
  }
}
