/** Time-based one-time passwords: section 4.2 of RFC 6238 over the truncation of section 5.3 of RFC 4226. */
module Totp {
  import opened Wrappers
  import opened ByteStrings
  import opened Text
  import opened Base32

  const PERIOD_SECONDS: nat := 30
  const DIGITS: nat := 6

  // ---------------------------------------------------------------- the secret

  /**
    `c.upper()`, for ASCII and for the ten other characters whose upper case is
    ASCII: the sharp and long s, the dotless i and seven ligatures.  All others
    are kept, which no base32 text notices: their upper case is not ASCII either.
   */
  function Upper(c: char): (r: string)
    ensures r != []
    ensures c as int < 0x80 ==> r == [if 'a' <= c <= 'z' then c - 'a' + 'A' else c]
  {
    if 'a' <= c <= 'z' then [c - 'a' + 'A']
    else if c as int < 0x80 then [c]
    else
      match c as int
      case 0xDF => "SS"
      case 0x131 => "I"
      case 0x17F => "S"
      case 0xFB00 => "FF"
      case 0xFB01 => "FI"
      case 0xFB02 => "FL"
      case 0xFB03 => "FFI"
      case 0xFB04 => "FFL"
      case 0xFB05 => "ST"
      case 0xFB06 => "ST"
      case _ => [c]
  }

  function Uppercased(s: string): string {
    if s == [] then [] else Upper(s[0]) + Uppercased(s[1..])
  }

  /** `s.replace(" ", "")` */
  function WithoutSpaces(s: string): string {
    if s == [] then [] else (if s[0] == ' ' then [] else [s[0]]) + WithoutSpaces(s[1..])
  }

  function Cleaned(secret: string): string {
    Uppercased(WithoutSpaces(Strip(secret)))
  }

  /** `_decode_secret` */
  function DecodeSecret(secret: string): Option<Bytes> {
    if Cleaned(secret) == "" then None else B32Decode(Padded(Cleaned(secret)))
  }

  /** A text written down by hand: blanks anywhere, letters in either case. */
  predicate IsCopy(s: string, text: string) {
    if s == [] then text == []
    else if s[0] == ' ' then IsCopy(s[1..], text)
    else Upper(s[0]) <= text && IsCopy(s[1..], text[|Upper(s[0])|..])
  }

  lemma NoBlankInSecret(c: char)
    requires SecretText(Upper(c))
    ensures !IsSpace(c)
  {
    assert IsSpace(c) ==> Upper(c) == [c];
    assert Upper(c)[0] in Upper(c);
  }

  predicate SecretText(text: string) {
    forall c <- text :: c == '=' || InAlphabet(c)
  }

  lemma PartOfSecret(c: char, text: string)
    requires SecretText(text) && Upper(c) <= text
    ensures SecretText(Upper(c)) && SecretText(text[|Upper(c)|..])
  {
    hide Upper;
    forall d | d in Upper(c) ensures d in text {
    }
    forall d | d in text[|Upper(c)|..] ensures d in text {
    }
  }

  lemma {:induction false} StripLeftCopy(s: string, text: string)
    requires IsCopy(s, text) && SecretText(text)
    ensures IsCopy(StripLeft(s), text)
  {
    if s != [] && s[0] == ' ' {
      StripLeftCopy(s[1..], text);
    } else if s != [] {
      PartOfSecret(s[0], text);
      NoBlankInSecret(s[0]);
    }
  }

  /** A trailing blank of a copy is one of the added ones. */
  lemma {:induction false} DropTrailing(s: string, text: string)
    requires IsCopy(s, text) && SecretText(text) && s != [] && IsSpace(s[|s| - 1])
    ensures IsCopy(s[..|s| - 1], text)
    decreases |s|
  {
    var init := s[..|s| - 1];
    if |s| == 1 {
      assert s[1..] == [];
      if s[0] != ' ' {
        PartOfSecret(s[0], text);
        NoBlankInSecret(s[0]);
      }
    } else if s[0] == ' ' {
      DropTrailing(s[1..], text);
      assert init[1..] == s[1..][..|s[1..]| - 1];
    } else {
      PartOfSecret(s[0], text);
      DropTrailing(s[1..], text[|Upper(s[0])|..]);
      assert init[1..] == s[1..][..|s[1..]| - 1];
    }
  }

  lemma {:induction false} StripRightCopy(s: string, text: string)
    requires IsCopy(s, text) && SecretText(text)
    ensures IsCopy(StripRight(s), text)
  {
    if s != [] && IsSpace(s[|s| - 1]) {
      DropTrailing(s, text);
      StripRightCopy(s[..|s| - 1], text);
    }
  }

  lemma {:induction false} CopyCleans(s: string, text: string)
    requires IsCopy(s, text)
    ensures Uppercased(WithoutSpaces(s)) == text
  {
    if s == [] {
    } else if s[0] == ' ' {
      CopyCleans(s[1..], text);
      assert WithoutSpaces(s) == WithoutSpaces(s[1..]);
    } else {
      var rest := text[|Upper(s[0])|..];
      CopyCleans(s[1..], rest);
      assert WithoutSpaces(s)[1..] == WithoutSpaces(s[1..]);
      assert Uppercased(WithoutSpaces(s)) == Upper(s[0]) + Uppercased(WithoutSpaces(s[1..]));
      assert text == Upper(s[0]) + rest;
    }
  }

  /** However a key's encoding is copied - grouped, in lower case, with or without its padding - it decodes to the key. */
  lemma CopiesDecode(key: Bytes, secret: string)
    requires key != [] && (IsCopy(secret, Unpadded(key)) || IsCopy(secret, Encoded(key)))
    ensures DecodeSecret(secret) == Some(key)
  {
    hide IsCopy, Unpadded, StripLeft, StripRight, B32Decode, Padded, InAlphabet;
    var text := if IsCopy(secret, Unpadded(key)) then Unpadded(key) else Encoded(key);
    EncodingIsSecretText(key);
    StripLeftCopy(secret, text);
    StripRightCopy(StripLeft(secret), text);
    CopyCleans(Strip(secret), text);
    RepaddingRestores(key);
    RoundTrip(key);
  }

  lemma EncodingIsSecretText(key: Bytes)
    requires key != []
    ensures SecretText(Unpadded(key)) && SecretText(Encoded(key)) && Unpadded(key) != [] && Encoded(key) != []
  {
    var s := Unpadded(key);
    assert |s| > 0 by {
      hide EncodedGroup;
      if |key| < 5 {
        assert s == EncodedGroup(key);
      } else {
        assert s == EncodedGroup(key[..5]) + Unpadded(key[5..]);
      }
    }
  }

  // ---------------------------------------------------------------- the code

  /** HMAC-SHA-1 of a key and a message; all that matters here is the length of its result. */
  ghost predicate IsHmacSha1(hmac: (Bytes, Bytes) -> Bytes) {
    forall key, message :: |hmac(key, message)| == 20
  }

  /** `digest[-1] & 0x0F` */
  function Offset(digest: Bytes): (o: nat)
    requires |digest| == 20
    ensures o + 4 <= |digest|
  {
    digest[19] % 16
  }

  /** Four bytes from the offset, without the top bit. */
  function Truncated(digest: Bytes): (n: nat)
    requires |digest| == 20
    ensures n < 0x8000_0000
  {
    FromBigEndian(digest[Offset(digest)..Offset(digest) + 4]) % 0x8000_0000
  }

  /** `s.zfill(width)` for a string of digits. */
  function ZeroFilled(s: string, width: nat): (r: string)
    ensures |r| == if |s| < width then width else |s|
    decreases width - |s|
  {
    if |s| < width then ZeroFilled("0" + s, width) else s
  }

  function CodeText(code: nat): string {
    ZeroFilled(ToDecimal(code), DIGITS)
  }

  datatype TotpResult = NoCode | Code(text: string) | PackError

  /** `int(timestamp // PERIOD_SECONDS)` */
  function Counter(timestamp: real): int {
    (timestamp / PERIOD_SECONDS as real).Floor
  }

  /** `generate_totp`; packing a counter outside an unsigned 64-bit integer is an error. */
  function GenerateTotp(hmac: (Bytes, Bytes) -> Bytes, secret: Option<string>, timestamp: real): TotpResult
    requires IsHmacSha1(hmac)
  {
    if secret.None? || secret.value == "" || DecodeSecret(secret.value).None? then NoCode
    else if !(0 <= Counter(timestamp) < Pow256(8)) then PackError
    else
      var digest := hmac(DecodeSecret(secret.value).value, BigEndian(Counter(timestamp), 8));
      Code(CodeText(Truncated(digest) % 1000000))
  }

  /** `int(timestamp)`: towards zero. */
  function ToInt(timestamp: real): int {
    if timestamp >= 0.0 then timestamp.Floor else -((-timestamp).Floor)
  }

  function SecondsRemaining(timestamp: real): (n: nat)
    ensures 1 <= n <= PERIOD_SECONDS
  {
    PERIOD_SECONDS - ToInt(timestamp) % PERIOD_SECONDS
  }

  function IsValidSecret(secret: string): bool {
    secret != "" && DecodeSecret(secret).Some?
  }

  // ---------------------------------------------------------------- six digits

  lemma {:induction false} ZeroFilledValue(s: string, width: nat)
    requires AllDigits(s)
    ensures AllDigits(ZeroFilled(s, width)) && ParseDecimal(ZeroFilled(s, width)) == ParseDecimal(s)
    decreases width - |s|
  {
    if |s| < width {
      LeadingZero(s);
      ZeroFilledValue("0" + s, width);
    }
  }

  lemma {:induction false} LeadingZero(s: string)
    requires forall i :: 0 <= i < |s| ==> IsDigit(s[i])
    ensures forall i :: 0 <= i < |s| + 1 ==> IsDigit(("0" + s)[i])
    ensures ParseDecimal("0" + s) == ParseDecimal(s)
  {
    if s == [] {
      assert "0" + s == "0" && "0"[..0] == [];
    } else {
      LeadingZero(s[..|s| - 1]);
      assert ("0" + s)[..|s|] == "0" + s[..|s| - 1];
    }
  }

  lemma {:induction false} DecimalLength(n: nat, k: nat)
    requires k >= 1 && n < Pow10(k)
    ensures |ToDecimal(n)| <= k
  {
    if n >= 10 {
      assert k > 1;
      DecimalLength(n / 10, k - 1);
    }
  }

  function Pow10(k: nat): nat {
    if k == 0 then 1 else 10 * Pow10(k - 1)
  }

  lemma TenToSix()
    ensures Pow10(6) == 1000000
  {
    assert Pow10(3) == 1000;
  }

  /** The code's text is always six digits, and reads back as the code. */
  lemma CodeIsSixDigits(code: nat)
    requires code < 1000000
    ensures |CodeText(code)| == 6 && AllDigits(CodeText(code)) && ParseDecimal(CodeText(code)) == code
  {
    TenToSix();
    DecimalLength(code, 6);
    ZeroFilledValue(ToDecimal(code), DIGITS);
    DecimalRoundTrip(code);
  }

  /** RFC 4226, section 5.3: the four bytes from the offset, read from the high end with the top bit masked. */
  lemma TruncationIs(digest: Bytes)
    requires |digest| == 20
    ensures var o := digest[19] % 16;
            o + 3 < 20
            && Truncated(digest) == (digest[o] as int % 128) * 0x100_0000 + digest[o + 1] as int * 0x1_0000
                                    + digest[o + 2] as int * 0x100 + digest[o + 3] as int
  {
    var o := Offset(digest);
    var b := digest[o..o + 4];
    FourBytes(b);
    var rest := b[1] as int * 0x1_0000 + b[2] as int * 0x100 + b[3] as int;
    assert 0 <= rest < 0x100_0000;
    TopBit(b[0], rest);
  }

  lemma FourBytes(b: Bytes)
    requires |b| == 4
    ensures FromBigEndian(b) ==
            b[0] as int * 0x100_0000 + (b[1] as int * 0x1_0000 + b[2] as int * 0x100 + b[3] as int)
  {
    var b3, b2, b1 := b[..3], b[..2], b[..1];
    assert b3[..2] == b2 && b2[..1] == b1 && b1[..0] == [];
    assert FromBigEndian(b1) == b[0];
    assert FromBigEndian(b2) == 0x100 * (b[0] as int) + b[1] as int;
    assert FromBigEndian(b3) == 0x100 * FromBigEndian(b2) + b[2];
  }

  lemma TopBit(high: nat, rest: nat)
    requires rest < 0x100_0000
    ensures (high * 0x100_0000 + rest) % 0x8000_0000 == (high % 128) * 0x100_0000 + rest
  {
    var q, r := high / 128, high % 128;
    assert high * 0x100_0000 + rest == q * 0x8000_0000 + (r * 0x100_0000 + rest);
    assert r * 0x100_0000 + rest < 0x8000_0000;
  }

  /** Every code is six digits whose value is the truncated integer modulo a million. */
  lemma CodesAreTruncations(hmac: (Bytes, Bytes) -> Bytes, secret: string, timestamp: real)
    requires IsHmacSha1(hmac)
    requires GenerateTotp(hmac, Some(secret), timestamp).Code?
    ensures
      var text := GenerateTotp(hmac, Some(secret), timestamp).text;
      && DecodeSecret(secret).Some? && 0 <= Counter(timestamp) < Pow256(8)
      && |text| == 6 && AllDigits(text)
      && ParseDecimal(text) == Truncated(hmac(DecodeSecret(secret).value, BigEndian(Counter(timestamp), 8))) % 1000000
  {
    hide DecodeSecret, Counter, Truncated, CodeText, BigEndian;
    CodeIsSixDigits(Truncated(hmac(DecodeSecret(secret).value, BigEndian(Counter(timestamp), 8))) % 1000000);
  }

  // ---------------------------------------------------------------- the window

  lemma CounterOfSecond(t: real, n: int)
    requires n as real <= t < n as real + 1.0
    ensures Counter(t) == n / 30
  {
    var q := n / 30;
    assert 30 * q <= n < 30 * q + 30;
    assert q as real * 30.0 <= t;
    assert t < (q + 1) as real * 30.0;
    assert q as real <= t / 30.0 < (q + 1) as real;
  }

  /**
    The counter is the number of whole periods since the epoch.  From any time
    on it - and so the code - stays the same until seconds_remaining seconds
    after the current whole second, and is one more from then on for a whole
    period.
   */
  lemma WindowIsExact(t: real, later: real)
    requires 0.0 <= t <= later
    ensures Counter(t) == t.Floor / 30
    ensures var ends := t.Floor + SecondsRemaining(t);
            && (later < ends as real ==> Counter(later) == Counter(t))
            && (ends as real <= later < (ends + PERIOD_SECONDS) as real ==> Counter(later) == Counter(t) + 1)
  {
    var n, m := t.Floor, later.Floor;
    CounterOfSecond(t, n);
    CounterOfSecond(later, m);
    var ends := n + SecondsRemaining(t);
    assert ends == 30 * (n / 30) + 30;
    assert later < ends as real <==> m < ends;
    assert later < (ends + 30) as real <==> m < ends + 30;
  }

  /** The code itself does not change within its window. */
  lemma CodeHoldsUntilTheEnd(hmac: (Bytes, Bytes) -> Bytes, secret: Option<string>, t: real, later: real)
    requires IsHmacSha1(hmac)
    requires 0.0 <= t <= later && later < (t.Floor + SecondsRemaining(t)) as real
    ensures GenerateTotp(hmac, secret, later) == GenerateTotp(hmac, secret, t)
  {
    hide DecodeSecret, Counter, Truncated, CodeText, BigEndian;
    WindowIsExact(t, later);
  }

  /** Exactly which secrets and times give a code. */
  lemma CodeIff(hmac: (Bytes, Bytes) -> Bytes, secret: string, timestamp: real)
    requires IsHmacSha1(hmac)
    ensures GenerateTotp(hmac, Some(secret), timestamp).Code? <==>
            IsValidSecret(secret) && 0.0 <= timestamp < 30.0 * Pow256(8) as real
  {
    hide DecodeSecret, Truncated, CodeText, BigEndian, Pow256;
    CounterRange(timestamp, Pow256(8));
  }

  lemma CounterRange(t: real, limit: nat)
    ensures 0 <= Counter(t) < limit <==> 0.0 <= t < 30.0 * limit as real
  {
    var x := t / 30.0;
    assert 0.0 <= t <==> 0.0 <= x;
    assert t < 30.0 * limit as real <==> x < limit as real;
    assert x.Floor < limit <==> x < limit as real;
  }
}
