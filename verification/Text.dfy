/** The string operations the services rely on: decimal numbers, splitting, stripping, joining. */
module Text {
  predicate IsDigit(c: char) {
    '0' <= c <= '9'
  }

  /** `s.isdigit()` for ASCII text. */
  predicate AllDigits(s: string) {
    s != [] && forall i :: 0 <= i < |s| ==> IsDigit(s[i])
  }

  function DigitChar(d: nat): char
    requires d < 10
  {
    '0' + d as char
  }

  function DigitValue(c: char): (d: nat)
    requires IsDigit(c)
    ensures d < 10 && DigitChar(d) == c
  {
    c as int - '0' as int
  }

  function ToDecimal(n: nat): (s: string)
    ensures AllDigits(s)
  {
    if n < 10 then [DigitChar(n)] else ToDecimal(n / 10) + [DigitChar(n % 10)]
  }

  /** `int(s)` of a string of digits. */
  function ParseDecimal(s: string): nat
    requires forall i :: 0 <= i < |s| ==> IsDigit(s[i])
  {
    if s == [] then 0 else 10 * ParseDecimal(s[..|s| - 1]) + DigitValue(s[|s| - 1])
  }

  lemma {:induction false} DecimalRoundTrip(n: nat)
    ensures ParseDecimal(ToDecimal(n)) == n
  {
    var s := ToDecimal(n);
    if n < 10 {
      assert s[..|s| - 1] == [];
    } else {
      DecimalRoundTrip(n / 10);
      assert s[..|s| - 1] == ToDecimal(n / 10);
    }
  }

  /** `f"{n}"` of a Python int. */
  function IntToString(n: int): string {
    if n >= 0 then ToDecimal(n) else "-" + ToDecimal(-n)
  }

  lemma IntToStringChars(n: int)
    ensures forall i :: 0 <= i < |IntToString(n)| ==> IntToString(n)[i] == '-' || IsDigit(IntToString(n)[i])
  {
  }

  predicate StartsWith(s: string, prefix: string) {
    prefix <= s
  }

  predicate EndsWith(s: string, suffix: string) {
    |suffix| <= |s| && s[|s| - |suffix|..] == suffix
  }

  /** `s.split(sep, 1)[0]`: what precedes the first separator, or all of s. */
  function BeforeFirst(s: string, sep: char): (r: string)
    ensures sep !in r
    ensures sep !in s ==> r == s
  {
    if s == [] || s[0] == sep then [] else [s[0]] + BeforeFirst(s[1..], sep)
  }

  /** `s.rsplit(sep, 1)[-1]`: what follows the last separator, or all of s. */
  function AfterLast(s: string, sep: char): (r: string)
    ensures sep !in r
    ensures sep !in s ==> r == s
  {
    if s == [] || s[|s| - 1] == sep then []
    else
      var r := AfterLast(s[..|s| - 1], sep) + [s[|s| - 1]];
      assert sep !in s ==> s[..|s| - 1] + [s[|s| - 1]] == s;
      r
  }

  lemma {:induction false} BeforeFirstAt(s: string, sep: char, tail: string)
    requires sep !in s
    ensures BeforeFirst(s + [sep] + tail, sep) == s
  {
    if s == [] {
      assert s + [sep] + tail == [sep] + tail;
    } else {
      BeforeFirstAt(s[1..], sep, tail);
      assert (s + [sep] + tail)[1..] == s[1..] + [sep] + tail;
    }
  }

  lemma {:induction false} AfterLastAt(head: string, sep: char, s: string)
    ensures AfterLast(head + [sep] + s, sep) == AfterLast(s, sep)
  {
    if s == [] {
      assert head + [sep] + s == head + [sep];
    } else {
      var all := head + [sep] + s;
      assert all[|all| - 1] == s[|s| - 1];
      assert all[..|all| - 1] == head + [sep] + s[..|s| - 1];
      AfterLastAt(head, sep, s[..|s| - 1]);
    }
  }

  /** The characters `str.strip()` removes. */
  predicate IsSpace(c: char) {
    var n := c as int;
    9 <= n <= 13 || 28 <= n <= 32 || n == 0x85 || n == 0xA0 || n == 0x1680 || 0x2000 <= n <= 0x200A
    || n == 0x2028 || n == 0x2029 || n == 0x202F || n == 0x205F || n == 0x3000
  }

  function StripLeft(s: string): (r: string)
    ensures r != [] ==> !IsSpace(r[0])
  {
    if s != [] && IsSpace(s[0]) then StripLeft(s[1..]) else s
  }

  function StripRight(s: string): (r: string)
    ensures r <= s
    ensures r != [] ==> !IsSpace(r[|r| - 1])
  {
    if s != [] && IsSpace(s[|s| - 1]) then StripRight(s[..|s| - 1]) else s
  }

  function Strip(s: string): (r: string)
    ensures r != [] ==> !IsSpace(r[0]) && !IsSpace(r[|r| - 1])
  {
    StripRight(StripLeft(s))
  }

  /** `"".join(parts)` */
  function Join(parts: seq<string>): string {
    if parts == [] then "" else parts[0] + Join(parts[1..])
  }

  lemma {:induction false} JoinConcat(a: seq<string>, b: seq<string>)
    ensures Join(a + b) == Join(a) + Join(b)
  {
    if a == [] {
      assert a + b == b;
    } else {
      assert (a + b)[0] == a[0] && (a + b)[1..] == a[1..] + b;
      JoinConcat(a[1..], b);
    }
  }

  lemma Associates(a: string, b: string, c: string)
    ensures a + b + c == a + (b + c)
  {
  }

  lemma JoinOne(part: string)
    ensures Join([part]) == part
  {
    assert [part][1..] == [];
  }

  lemma SplitAt<T>(s: seq<T>, j: nat)
    requires j < |s|
    ensures s == s[..j] + ([s[j]] + s[j + 1..])
  {
  }

  /** Every part stands after the parts before it. */
  lemma JoinKeepsOrder(parts: seq<string>, j: nat)
    requires j < |parts|
    ensures Join(parts) == Join(parts[..j]) + parts[j] + Join(parts[j + 1..])
  {
    SplitAt(parts, j);
    JoinConcat(parts[..j], [parts[j]] + parts[j + 1..]);
    JoinConcat([parts[j]], parts[j + 1..]);
    JoinOne(parts[j]);
    Associates(Join(parts[..j]), parts[j], Join(parts[j + 1..]));
    hide *;
  }

  predicate Blank(s: string) {
    forall i :: 0 <= i < |s| ==> IsSpace(s[i])
  }

  lemma {:induction false} StripLeftIs(s: string) returns (blank: string)
    ensures s == blank + StripLeft(s) && Blank(blank)
  {
    if s != [] && IsSpace(s[0]) {
      var rest := StripLeftIs(s[1..]);
      blank := [s[0]] + rest;
    } else {
      blank := [];
    }
  }

  lemma {:induction false} StripRightIs(s: string) returns (blank: string)
    ensures s == StripRight(s) + blank && Blank(blank)
  {
    if s != [] && IsSpace(s[|s| - 1]) {
      var rest := StripRightIs(s[..|s| - 1]);
      blank := rest + [s[|s| - 1]];
    } else {
      blank := [];
    }
  }

  /** Stripping takes spaces off both ends and nothing else. */
  lemma StripIs(s: string) returns (left: string, right: string)
    ensures s == left + Strip(s) + right && Blank(left) && Blank(right)
  {
    left := StripLeftIs(s);
    right := StripRightIs(StripLeft(s));
    assert s == left + (Strip(s) + right);
  }

  lemma {:induction false} StripLeftSkips(left: string, s: string)
    requires Blank(left) && (s != [] ==> !IsSpace(s[0]))
    ensures StripLeft(left + s) == s
  {
    if left == [] {
      assert left + s == s;
    } else {
      assert (left + s)[0] == left[0] && (left + s)[1..] == left[1..] + s;
      StripLeftSkips(left[1..], s);
    }
  }

  lemma {:induction false} StripRightSkips(s: string, right: string)
    requires Blank(right) && (s != [] ==> !IsSpace(s[|s| - 1]))
    ensures StripRight(s + right) == s
  {
    if right == [] {
      assert s + right == s;
    } else {
      var all := s + right;
      assert all[|all| - 1] == right[|right| - 1] && all[..|all| - 1] == s + right[..|right| - 1];
      StripRightSkips(s, right[..|right| - 1]);
    }
  }

  /** What has no space at either end is what stripping leaves of it between spaces. */
  lemma StripFinds(left: string, s: string, right: string)
    requires Blank(left) && Blank(right) && s != [] && !IsSpace(s[0]) && !IsSpace(s[|s| - 1])
    ensures Strip(left + s + right) == s
  {
    assert left + s + right == left + (s + right);
    assert (s + right)[0] == s[0];
    StripLeftSkips(left, s + right);
    StripRightSkips(s, right);
  }
}
