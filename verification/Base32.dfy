/** Base 32 (section 6 of RFC 4648): the encoding, and the decoder with its own padding rules. */
module Base32 {
  import opened Wrappers
  import opened ByteStrings

  // ---------------------------------------------------------------- digits

  predicate InAlphabet(c: char) {
    'A' <= c <= 'Z' || '2' <= c <= '7'
  }

  function CharOf(d: nat): (c: char)
    requires d < 32
    ensures InAlphabet(c) && DigitOf(c) == d
  {
    if d < 26 then 'A' + d as char else '2' + (d - 26) as char
  }

  function DigitOf(c: char): (d: nat)
    requires InAlphabet(c)
    ensures d < 32
  {
    if 'A' <= c <= 'Z' then c as int - 'A' as int else 26 + (c as int - '2' as int)
  }

  predicate AllInAlphabet(s: string) {
    forall c <- s :: InAlphabet(c)
  }

  function Pow32(k: nat): (r: nat)
    ensures r > 0
  {
    if k == 0 then 1 else 32 * Pow32(k - 1)
  }

  /** The low k base-32 digits of n, most significant first. */
  function Digits(n: nat, k: nat): (s: string)
    ensures |s| == k && AllInAlphabet(s)
  {
    if k == 0 then [] else Digits(n / 32, k - 1) + [CharOf(n % 32)]
  }

  /** `acc = (acc << 5) + digit` over a string of digits. */
  function Accumulated(s: string): (n: nat)
    requires AllInAlphabet(s)
    ensures n < Pow32(|s|)
  {
    if s == [] then 0 else 32 * Accumulated(s[..|s| - 1]) + DigitOf(s[|s| - 1])
  }

  lemma {:induction false} DigitsRoundTrip(n: nat, k: nat)
    requires n < Pow32(k)
    ensures Accumulated(Digits(n, k)) == n
  {
    if k > 0 {
      DigitsRoundTrip(n / 32, k - 1);
      assert Digits(n, k)[..k - 1] == Digits(n / 32, k - 1);
    }
  }

  lemma ShiftOut(m: nat, j: nat)
    requires j > 0
    ensures (m * Pow32(j)) / 32 == m * Pow32(j - 1)
  {
    var p := Pow32(j - 1);
    assert m * (32 * p) == 32 * (m * p);
  }

  /** n without its low j digits. */
  function Shifted(n: nat, j: nat): nat {
    if j == 0 then n else Shifted(n / 32, j - 1)
  }

  lemma {:induction false} LeadingDigits(n: nat, j: nat, k: nat)
    ensures Digits(n, k + j)[..k] == Digits(Shifted(n, j), k)
    decreases j
  {
    if j > 0 {
      LeadingDigits(n / 32, j - 1, k);
      assert Digits(n, k + j)[..k] == Digits(n / 32, k + j - 1)[..k];
    }
  }

  lemma {:induction false} ShiftedBack(m: nat, j: nat)
    ensures Shifted(m * Pow32(j), j) == m
    decreases j
  {
    hide Pow32;
    if j == 0 {
      assert Pow32(0) == 1 by { Powers(); }
      TimesOne(m);
    } else {
      ShiftOut(m, j);
      ShiftedBack(m, j - 1);
    }
  }

  lemma TimesOne(m: nat)
    ensures m * 1 == m
  {
  }

  // ---------------------------------------------------------------- encoding

  /** How many digits carry the bits of n bytes. */
  function CharsFor(n: nat): (c: nat)
    ensures n <= 5 ==> c <= 8
  {
    (8 * n + 4) / 5
  }

  function Zeros(n: nat): (r: Bytes)
    ensures |r| == n
  {
    seq(n, i => 0)
  }

  /** Up to five bytes, filled up with zero bits to whole digits. */
  function EncodedGroup(g: Bytes): (s: string)
    requires 1 <= |g| <= 5
    ensures |s| == CharsFor(|g|) && AllInAlphabet(s)
  {
    Digits(FromBigEndian(g + Zeros(5 - |g|)), 8)[..CharsFor(|g|)]
  }

  /** The encoding without its padding. */
  function Unpadded(data: Bytes): (s: string)
    ensures AllInAlphabet(s)
  {
    if data == [] then []
    else if |data| < 5 then EncodedGroup(data)
    else EncodedGroup(data[..5]) + Unpadded(data[5..])
  }

  function Pads(n: nat): (s: string)
    ensures |s| == n && forall c <- s :: c == '='
  {
    seq(n, i => '=')
  }

  /** `"=" * ((-len(s)) % 8)`: up to the next multiple of eight. */
  function Padded(s: string): (r: string)
    ensures |r| % 8 == 0
  {
    s + Pads((8 - |s| % 8) % 8)
  }

  function Encoded(data: Bytes): string {
    Padded(Unpadded(data))
  }

  // ---------------------------------------------------------------- decoding

  /** `s.rstrip("=")` */
  function WithoutPads(s: string): (r: string)
    ensures r <= s
    ensures r != [] ==> r[|r| - 1] != '='
  {
    if s != [] && s[|s| - 1] == '=' then WithoutPads(s[..|s| - 1]) else s
  }

  /** Whole groups of eight digits are five bytes each; a last short group keeps only its whole bytes. */
  function DecodedDigits(s: string): Bytes
    requires AllInAlphabet(s)
    decreases |s|
  {
    if s == [] then []
    else if |s| < 8 then
      var missing := 8 - |s|;
      var bytes := BigEndian(Accumulated(s) * Pow32(missing), 5);
      bytes[..(43 - 5 * missing) / 8]
    else BigEndian(Accumulated(s[..8]), 5) + DecodedDigits(s[8..])
  }

  /** `base64.b32decode`; None for its errors. */
  function B32Decode(s: string): Option<Bytes> {
    var digits := WithoutPads(s);
    var padding := |s| - |digits|;
    if |s| % 8 != 0 || !AllInAlphabet(digits) || padding !in {0, 1, 3, 4, 6} then None
    else Some(DecodedDigits(digits))
  }

  // ---------------------------------------------------------------- the round trip

  lemma {:induction false} ZerosShift(g: Bytes, k: nat)
    ensures FromBigEndian(g + Zeros(k)) == FromBigEndian(g) * Pow256(k)
    decreases k
  {
    if k == 0 {
      assert g + Zeros(0) == g;
    } else {
      ZerosShift(g, k - 1);
      var all := g + Zeros(k);
      assert all[..|all| - 1] == g + Zeros(k - 1);
      assert all[|all| - 1] == 0;
      MultiplyBytes(FromBigEndian(g), Pow256(k - 1));
    }
  }

  lemma MultiplyBytes(m: nat, p: nat)
    ensures 256 * (m * p) == m * (256 * p)
  {
  }

  lemma Powers()
    ensures Pow32(0) == 1 && Pow32(1) == 0x20 && Pow32(3) == 0x8000 && Pow32(4) == 0x10_0000 && Pow32(6) == 0x4000_0000
    ensures Pow256(0) == 1 && Pow256(1) == 0x100 && Pow256(2) == 0x1_0000 && Pow256(3) == 0x100_0000
    ensures Pow256(4) == 0x1_0000_0000 && Pow256(5) == 0x100_0000_0000
    ensures Pow32(8) == 0x100_0000_0000 && Pow32(2) == 0x400 && Pow32(5) == 0x200_0000 && Pow32(7) == 0x8_0000_0000
  {
    assert Pow32(2) == 0x400;
    assert Pow32(4) == 0x10_0000;
    assert Pow32(6) == 0x4000_0000;
    assert Pow256(2) == 0x1_0000;
    assert Pow256(4) == 0x1_0000_0000;
  }

  /** The digits dropped from a group carry no bit of it. */
  lemma GroupValue(g: Bytes) returns (m: nat)
    requires 1 <= |g| <= 5
    ensures var j := 8 - CharsFor(|g|);
            FromBigEndian(g + Zeros(5 - |g|)) == m * Pow32(j) && m < Pow32(CharsFor(|g|))
  {
    hide Pow32, Pow256, FromBigEndian;
    Powers();
    var v := FromBigEndian(g);
    ZerosShift(g, 5 - |g|);
    if |g| == 1 {
      m := 4 * v;
    } else if |g| == 2 {
      m := 16 * v;
    } else if |g| == 3 {
      m := 2 * v;
    } else if |g| == 4 {
      m := 8 * v;
    } else {
      m := v;
    }
  }

  lemma GroupRoundTrip(g: Bytes)
    requires 1 <= |g| <= 5
    ensures var c := CharsFor(|g|);
            BigEndian(Accumulated(EncodedGroup(g)) * Pow32(8 - c), 5)[..|g|] == g
  {
    hide Pow32, Pow256, FromBigEndian, BigEndian, Digits, Accumulated, CharsFor, Shifted;
    var c := CharsFor(|g|);
    var whole := g + Zeros(5 - |g|);
    var m := GroupValue(g);
    LeadingDigits(m * Pow32(8 - c), 8 - c, c);
    ShiftedBack(m, 8 - c);
    DigitsRoundTrip(m, c);
    FromBigEndianRoundTrip(whole);
  }

  lemma ShortGroup(g: Bytes)
    requires 1 <= |g| < 5
    ensures DecodedDigits(EncodedGroup(g)) == g
  {
    hide Pow32, BigEndian, Accumulated, EncodedGroup;
    GroupRoundTrip(g);
    var missing := 8 - CharsFor(|g|);
    assert (43 - 5 * missing) / 8 == |g|;
  }

  lemma FullGroup(g: Bytes)
    requires |g| == 5
    ensures BigEndian(Accumulated(EncodedGroup(g)), 5) == g
  {
    hide BigEndian, Accumulated, EncodedGroup;
    GroupRoundTrip(g);
    assert Accumulated(EncodedGroup(g)) * Pow32(0) == Accumulated(EncodedGroup(g));
    var b := BigEndian(Accumulated(EncodedGroup(g)), 5);
    assert b[..5] == b;
  }

  lemma {:induction false} DigitsDecode(data: Bytes)
    ensures DecodedDigits(Unpadded(data)) == data
    decreases |data|
  {
    hide EncodedGroup, BigEndian, Accumulated;
    if data == [] {
    } else if |data| < 5 {
      ShortGroup(data);
    } else {
      var first, rest := EncodedGroup(data[..5]), Unpadded(data[5..]);
      FullGroup(data[..5]);
      DigitsDecode(data[5..]);
      assert (first + rest)[..8] == first && (first + rest)[8..] == rest;
      assert data == data[..5] + data[5..];
    }
  }

  lemma {:induction false} PadsStrip(s: string, n: nat)
    requires AllInAlphabet(s)
    ensures WithoutPads(s + Pads(n)) == s
    decreases n
  {
    var all := s + Pads(n);
    if n == 0 {
      assert all == s;
      if s != [] {
        assert s[|s| - 1] in s;
      }
    } else {
      assert all[|all| - 1] == '=';
      assert all[..|all| - 1] == s + Pads(n - 1);
      PadsStrip(s, n - 1);
    }
  }

  lemma {:induction false} LengthMod(data: Bytes)
    ensures |Unpadded(data)| % 8 == CharsFor(|data| % 5)
    decreases |data|
  {
    hide EncodedGroup, CharsFor;
    CharCounts();
    if data == [] {
    } else if |data| < 5 {
      assert |data| % 5 == |data| && |Unpadded(data)| == CharsFor(|data|);
      assert CharsFor(|data|) < 8;
    } else {
      LengthMod(data[5..]);
      OneGroupMore(|Unpadded(data[5..])|, |data[5..]|);
      assert |Unpadded(data)| == 8 + |Unpadded(data[5..])| && |data| == 5 + |data[5..]|;
    }
  }

  lemma OneGroupMore(chars: nat, bytes: nat)
    ensures (8 + chars) % 8 == chars % 8 && (5 + bytes) % 5 == bytes % 5
  {
  }

  lemma CharCounts()
    ensures CharsFor(0) == 0 && CharsFor(1) == 2 && CharsFor(2) == 4 && CharsFor(3) == 5 && CharsFor(4) == 7 && CharsFor(5) == 8
  {
  }

  /** The padding `Padded` adds is one the decoder accepts, whatever the length of the data. */
  lemma PaddingAccepted(data: Bytes)
    ensures (8 - |Unpadded(data)| % 8) % 8 in {0, 1, 3, 4, 6}
  {
    hide Unpadded, CharsFor;
    LengthMod(data);
    CharCounts();
    var r := |data| % 5;
    assert r == 0 || r == 1 || r == 2 || r == 3 || r == 4;
  }

  /** Every byte string comes back from its encoding. */
  lemma RoundTrip(data: Bytes)
    ensures B32Decode(Encoded(data)) == Some(data)
  {
    hide DecodedDigits, Unpadded;
    var s := Unpadded(data);
    PadsStrip(s, (8 - |s| % 8) % 8);
    PaddingAccepted(data);
    DigitsDecode(data);
  }

  /** Dropping the padding and padding again gives the encoding back. */
  lemma RepaddingRestores(data: Bytes)
    ensures Padded(WithoutPads(Encoded(data))) == Encoded(data)
    ensures Padded(Encoded(data)) == Encoded(data)
  {
    hide Unpadded, WithoutPads, AllInAlphabet;
    var s := Unpadded(data);
    PadsStrip(s, (8 - |s| % 8) % 8);
    NothingToPad(Encoded(data));
  }

  lemma NothingToPad(s: string)
    requires |s| % 8 == 0
    ensures Padded(s) == s
  {
    assert s + Pads(0) == s;
  }
}
