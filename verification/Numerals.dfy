/** `str.isdigit()` and `int(s)` of Python 3.12, whose character data is that of Unicode 15.0. */
module Numerals {
  import opened Wrappers
  import opened Text

  /** The zero of each run of ten decimal digits beyond ASCII, from the last run to the first. */
  const ZEROS: seq<int> := [
    0x1FBF0, 0x1E950, 0x1E4F0, 0x1E2F0, 0x1E140, 0x1D7F6, 0x1D7EC, 0x1D7E2, 0x1D7D8, 0x1D7CE, 0x16B50, 0x16AC0,
    0x16A60, 0x11F50, 0x11DA0, 0x11D50, 0x11C50, 0x11950, 0x118E0, 0x11730, 0x116C0, 0x11650, 0x114D0, 0x11450,
    0x112F0, 0x111D0, 0x11136, 0x110F0, 0x11066, 0x10D30, 0x104A0, 0xFF10, 0xABF0, 0xAA50, 0xA9F0, 0xA9D0, 0xA900,
    0xA8D0, 0xA620, 0x1C50, 0x1C40, 0x1BB0, 0x1B50, 0x1A90, 0x1A80, 0x19D0, 0x1946, 0x1810, 0x17E0, 0x1090, 0x1040,
    0xF20, 0xED0, 0xE50, 0xDE6, 0xD66, 0xCE6, 0xC66, 0xBE6, 0xB66, 0xAE6, 0xA66, 0x9E6, 0x966, 0x7C0, 0x6F0, 0x660]

  /** Digits that are no decimals: superscripts, subscripts, circled and other forms. */
  const OTHER_DIGITS: seq<(int, int)> := [
    (0xB2, 0xB3), (0xB9, 0xB9), (0x1369, 0x1371), (0x19DA, 0x19DA), (0x2070, 0x2070), (0x2074, 0x2079),
    (0x2080, 0x2089), (0x2460, 0x2468), (0x2474, 0x247C), (0x2488, 0x2490), (0x24EA, 0x24EA), (0x24F5, 0x24FD),
    (0x24FF, 0x24FF), (0x2776, 0x277E), (0x2780, 0x2788), (0x278A, 0x2792), (0x10A40, 0x10A43), (0x10E60, 0x10E68),
    (0x11052, 0x1105A), (0x1F100, 0x1F10A)]

  function OffsetAmong(zeros: seq<int>, n: int): (r: Option<nat>)
    ensures r.Some? ==> r.value < 10
  {
    if zeros == [] then None
    else
      var zero := zeros[|zeros| - 1];
      if zero <= n < zero + 10 then Some(n - zero) else OffsetAmong(zeros[..|zeros| - 1], n)
  }

  predicate Within(ranges: seq<(int, int)>, n: int) {
    ranges != [] && (ranges[0].0 <= n <= ranges[0].1 || Within(ranges[1..], n))
  }

  /** The decimal value of a character, if it has one. */
  function Decimal(c: char): (d: Option<nat>)
    ensures d.Some? ==> d.value < 10
    ensures c as int < 0x660 ==> d == if IsDigit(c) then Some(DigitValue(c)) else None
  {
    if c as int >= 0x660 then OffsetAmong(ZEROS, c as int)
    else if IsDigit(c) then Some(DigitValue(c))
    else None
  }

  predicate IsAnyDigit(c: char)
    ensures c as int < 0x80 ==> (IsAnyDigit(c) <==> IsDigit(c))
  {
    Decimal(c).Some? || (c as int >= 0x80 && Within(OTHER_DIGITS, c as int))
  }

  /** `s.isdigit()` */
  predicate AllAnyDigits(s: string) {
    s != [] && forall i :: 0 <= i < |s| ==> IsAnyDigit(s[i])
  }

  /** The longest text `int` converts. */
  const MAX_DIGITS := 4300

  function DecimalsValue(s: string): Option<nat> {
    if s == [] then Some(0)
    else
      match (DecimalsValue(s[..|s| - 1]), Decimal(s[|s| - 1]))
      case (Some(n), Some(d)) => Some(10 * n + d)
      case _ => None
  }

  /** `int(s)` of a text of digits; None is the ValueError. */
  function ParseInt(s: string): Option<nat> {
    if |s| > MAX_DIGITS then None else DecimalsValue(s)
  }

  /** What a 64-bit integer column holds. */
  predicate Is64Bit(n: int) {
    -0x8000_0000_0000_0000 <= n < 0x8000_0000_0000_0000
  }

  function Pow10(k: nat): nat {
    if k == 0 then 1 else 10 * Pow10(k - 1)
  }

  lemma {:induction false} DecimalIsShort(n: nat, k: nat)
    requires k > 0 && n < Pow10(k)
    ensures |ToDecimal(n)| <= k
  {
    if n >= 10 {
      assert k > 1;
      DecimalIsShort(n / 10, k - 1);
    }
  }

  lemma {:induction false} DecimalsRoundTrip(n: nat)
    ensures DecimalsValue(ToDecimal(n)) == Some(n)
  {
    var s := ToDecimal(n);
    if n < 10 {
      assert s[..|s| - 1] == [];
    } else {
      DecimalsRoundTrip(n / 10);
      assert s[..|s| - 1] == ToDecimal(n / 10);
    }
  }

  /** Every id a column can hold is read back from its digits. */
  lemma IdRoundTrip(id: nat)
    requires Is64Bit(id)
    ensures AllAnyDigits(ToDecimal(id)) && ParseInt(ToDecimal(id)) == Some(id)
  {
    assert Pow10(19) == 10000000000000000000 by {
      assert Pow10(5) == 100000;
      assert Pow10(10) == 10000000000;
      assert Pow10(15) == 1000000000000000;
    }
    DecimalIsShort(id, 19);
    DecimalsRoundTrip(id);
  }

  lemma OneDigit(c: char)
    ensures AllAnyDigits([c]) <==> IsAnyDigit(c)
    ensures ParseInt([c]) == Decimal(c)
  {
    assert [c][..0] == [] && [c][0] == c;
    assert DecimalsValue([c][..0]) == Some(0);
    assert DecimalsValue([c]) == Decimal(c);
  }

  lemma FirstRange(zeros: seq<int>, ranges: seq<(int, int)>, n: int)
    ensures zeros != [] && zeros[|zeros| - 1] <= n < zeros[|zeros| - 1] + 10 ==>
              OffsetAmong(zeros, n) == Some(n - zeros[|zeros| - 1])
    ensures ranges != [] && ranges[0].0 <= n <= ranges[0].1 ==> Within(ranges, n)
  {
  }

  /** A superscript two is a digit that is no number, and an Arabic-Indic five is a five. */
  lemma DigitExamples(superscriptTwo: char, arabicFive: char)
    requires superscriptTwo as int == 0xB2 && arabicFive as int == 0x665
    ensures AllAnyDigits([superscriptTwo]) && ParseInt([superscriptTwo]) == None
    ensures AllAnyDigits([arabicFive]) && ParseInt([arabicFive]) == Some(5)
  {
    hide OffsetAmong, Within;
    assert |ZEROS| == 67 && ZEROS[66] == 0x660;
    FirstRange(ZEROS, OTHER_DIGITS, superscriptTwo as int);
    FirstRange(ZEROS, OTHER_DIGITS, arabicFive as int);
    OneDigit(superscriptTwo);
    OneDigit(arabicFive);
  }
}
