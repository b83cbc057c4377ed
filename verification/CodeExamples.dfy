/** Base 32 and the one-time password truncation against what the standards print. */
module CodeExamples {
  import opened Wrappers
  import opened ByteStrings
  import opened Text
  import opened Base32
  import opened Totp

  // ---------------------------------------------------------------- base 32

  /** Table 3 of RFC 4648. */
  const ALPHABET := "ABCDEFGHIJKLMNOPQRSTUVWXYZ234567"

  lemma AlphabetIs(d: nat)
    requires d < 32
    ensures |ALPHABET| == 32 && CharOf(d) == ALPHABET[d]
  {
  }

  /** The forty bits of five bytes, the first byte highest. */
  function Bits(g: Bytes): nat
    requires |g| == 5
  {
    g[0] as int * 0x1_0000_0000 + g[1] as int * 0x100_0000 + g[2] as int * 0x1_0000 + g[3] as int * 0x100 + g[4] as int
  }

  lemma BitsAre(g: Bytes)
    requires |g| == 5
    ensures FromBigEndian(g) == Bits(g)
  {
    var g4, g3, g2, g1 := g[..4], g[..3], g[..2], g[..1];
    assert g4[..3] == g3 && g3[..2] == g2 && g2[..1] == g1 && g1[..0] == [];
    assert FromBigEndian(g1) == g[0];
    assert FromBigEndian(g2) == 0x100 * (g[0] as int) + g[1] as int;
    assert FromBigEndian(g3) == 0x100 * FromBigEndian(g2) + g[2];
    assert FromBigEndian(g4) == 0x100 * FromBigEndian(g3) + g[3];
  }

  lemma DigitAt(n: nat, k: nat, i: nat)
    requires i < k
    ensures Digits(n, k)[i] == CharOf(Shifted(n, k - 1 - i) % 32)
    decreases k
  {
    if i < k - 1 {
      DigitAt(n / 32, k - 1, i);
    }
  }

  lemma ShiftsAre(n: nat)
    ensures Shifted(n, 0) == n && Shifted(n, 1) == n / 0x20 && Shifted(n, 2) == n / 0x400 && Shifted(n, 3) == n / 0x8000
    ensures Shifted(n, 4) == n / 0x10_0000 && Shifted(n, 5) == n / 0x200_0000 && Shifted(n, 6) == n / 0x4000_0000
    ensures Shifted(n, 7) == n / 0x8_0000_0000
  {
    var n1, n2, n3 := n / 0x20, n / 0x400, n / 0x8000;
    var n4, n5, n6, n7 := n / 0x10_0000, n / 0x200_0000, n / 0x4000_0000, n / 0x8_0000_0000;
    assert n1 / 0x20 == n2 && n2 / 0x20 == n3 && n3 / 0x20 == n4 && n4 / 0x20 == n5 && n5 / 0x20 == n6 && n6 / 0x20 == n7;
    assert Shifted(n1, 1) == n2 && Shifted(n2, 1) == n3 && Shifted(n3, 1) == n4;
    assert Shifted(n4, 1) == n5 && Shifted(n5, 1) == n6 && Shifted(n6, 1) == n7;
    assert Shifted(n5, 2) == n7 && Shifted(n4, 3) == n7 && Shifted(n3, 4) == n7 && Shifted(n2, 5) == n7 && Shifted(n1, 6) == n7;
    assert Shifted(n4, 2) == n6 && Shifted(n3, 3) == n6 && Shifted(n2, 4) == n6 && Shifted(n1, 5) == n6;
    assert Shifted(n3, 2) == n5 && Shifted(n2, 3) == n5 && Shifted(n1, 4) == n5;
    assert Shifted(n2, 2) == n4 && Shifted(n1, 3) == n4 && Shifted(n1, 2) == n3;
  }

  /** Five bytes are eight characters of the alphabet, five bits each, the highest bits first. */
  lemma GroupIs(g: Bytes)
    requires |g| == 5
    ensures var n, s := Bits(g), EncodedGroup(g);
      && |s| == 8
      && s[0] == ALPHABET[n / 0x8_0000_0000 % 32] && s[1] == ALPHABET[n / 0x4000_0000 % 32]
      && s[2] == ALPHABET[n / 0x200_0000 % 32] && s[3] == ALPHABET[n / 0x10_0000 % 32]
      && s[4] == ALPHABET[n / 0x8000 % 32] && s[5] == ALPHABET[n / 0x400 % 32]
      && s[6] == ALPHABET[n / 0x20 % 32] && s[7] == ALPHABET[n % 32]
  {
    var n := Bits(g);
    assert g + Zeros(0) == g;
    BitsAre(g);
    assert EncodedGroup(g) == Digits(n, 8);
    ShiftsAre(n);
    hide Shifted, CharOf, Digits, Bits, EncodedGroup;
    forall i | 0 <= i < 8
      ensures Digits(n, 8)[i] == ALPHABET[Shifted(n, 7 - i) % 32]
    {
      DigitAt(n, 8, i);
      AlphabetIs(Shifted(n, 7 - i) % 32);
    }
  }

  /** A last group of one to four bytes is the first two, four, five or seven characters of what it is with zero bytes after it. */
  lemma ShortGroupIs(g: Bytes, whole: Bytes)
    requires 1 <= |g| <= |whole| == 5 && g == whole[..|g|] && forall i :: |g| <= i < 5 ==> whole[i] == 0
    ensures EncodedGroup(g) == EncodedGroup(whole)[..[0, 2, 4, 5, 7, 8][|g|]]
  {
    assert g + Zeros(5 - |g|) == whole && whole + Zeros(0) == whole;
    hide Digits, FromBigEndian, Zeros;
  }

  // ---------------------------------------------------------------- truncation

  /** The digest of the worked example of section 5.4 of RFC 4226. */
  const DIGEST: Bytes := [0x1f, 0x86, 0x98, 0x69, 0x0e, 0x02, 0xca, 0x16, 0x61, 0x85,
                          0x50, 0xef, 0x7f, 0x19, 0xda, 0x8e, 0x94, 0x5b, 0x55, 0x5a]

  lemma TruncationExample()
    ensures Truncated(DIGEST) == 0x50ef7f19 && Truncated(DIGEST) % 1000000 == 872921
  {
    TruncationIs(DIGEST);
  }

  /** And its code. */
  lemma CodeExample()
    ensures CodeText(Truncated(DIGEST) % 1000000) == "872921"
  {
    TruncationExample();
    hide Truncated;
    assert ToDecimal(8) == "8" && ToDecimal(87) == "87" && ToDecimal(872) == "872";
    assert ToDecimal(8729) == "8729" && ToDecimal(87292) == "87292" && ToDecimal(872921) == "872921";
  }
}
