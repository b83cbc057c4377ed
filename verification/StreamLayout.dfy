/**
  The chunked format byte by byte: what stands where in an encoded file, and
  which bytes decode to what, without the functions that write and read them.
 */
module StreamLayout {
  import opened Wrappers
  import opened ByteStrings
  import opened StreamFormat

  /** Four bytes, the high one first. */
  function Word(n: nat): (w: Bytes)
    requires n < 0x1_0000_0000
    ensures |w| == 4
  {
    [n / 0x100_0000, n / 0x1_0000 % 0x100, n / 0x100 % 0x100, n % 0x100]
  }

  function WordValue(w: Bytes): nat
    requires |w| == 4
  {
    w[0] as int * 0x100_0000 + w[1] as int * 0x1_0000 + w[2] as int * 0x100 + w[3] as int
  }

  lemma PackedIsWord(n: nat)
    requires n < 0x1_0000_0000
    ensures BigEndian(n, 4) == Word(n)
  {
    var n1, n2, n3 := n / 0x100, n / 0x1_0000, n / 0x100_0000;
    assert n1 / 0x100 == n2 && n2 / 0x100 == n3 && n3 % 0x100 == n3;
    assert BigEndian(n3 / 0x100, 0) == [];
    assert BigEndian(n3, 1) == [n3 % 0x100];
    assert BigEndian(n2, 2) == [n3, n2 % 0x100];
    assert BigEndian(n1, 3) == [n3, n2 % 0x100, n1 % 0x100];
  }

  lemma UnpackedIsValue(w: Bytes)
    requires |w| == 4
    ensures FromBigEndian(w) == WordValue(w) < 0x1_0000_0000
  {
    var w3, w2, w1 := w[..3], w[..2], w[..1];
    assert w3[..2] == w2 && w2[..1] == w1 && w1[..0] == [];
    assert FromBigEndian(w1) == w[0];
    assert FromBigEndian(w2) == 0x100 * (w[0] as int) + w[1] as int;
    assert FromBigEndian(w3) == 0x100 * FromBigEndian(w2) + w[2];
  }

  /** A nonce is twelve bytes: the file's eight-byte prefix, then the frame's number with its high byte first. */
  lemma NonceLayout(prefix: Bytes, index: nat)
    requires |prefix| == 8 && index < 0x1_0000_0000
    ensures var nonce := Nonce(prefix, index);
      && |nonce| == 12
      && (forall i :: 0 <= i < 8 ==> nonce[i] == prefix[i])
      && nonce[8] == index / 0x100_0000 && nonce[9] == index / 0x1_0000 % 0x100
      && nonce[10] == index / 0x100 % 0x100 && nonce[11] == index % 0x100
  {
    PackedIsWord(index);
  }

  // ---------------------------------------------------------------- encoded files

  /** Part of a byte string, from a position on. */
  predicate StandsAt(file: Bytes, at: nat, part: Bytes) {
    at + |part| <= |file| && file[at..at + |part|] == part
  }

  /** The length of what follows, high byte first, and the chunk encrypted under the prefix and its number. */
  function SealedChunk(a: Aead, prefix: Bytes, index: nat, chunk: Bytes): Bytes
    requires index < 0x1_0000_0000 && |chunk| <= CHUNK_SIZE
  {
    Word(|chunk| + 16) + a.encrypt(prefix + Word(index), chunk)
  }

  lemma FrameLayout(a: Aead, prefix: Bytes, index: nat, chunk: Bytes)
    requires a.Lawful() && |chunk| <= CHUNK_SIZE && index < 0x1_0000_0000
    ensures Frame(a, prefix, index, chunk) == SealedChunk(a, prefix, index, chunk)
    ensures |Frame(a, prefix, index, chunk)| == |chunk| + 4 + TAG_LEN
  {
    PackedIsWord(index);
    PackedIsWord(|chunk| + 16);
    assert |a.encrypt(Nonce(prefix, index), chunk)| == |chunk| + 16;
  }

  lemma {:induction false} FrameStandsAt(a: Aead, prefix: Bytes, chunks: seq<Bytes>, index: nat, j: nat)
    requires a.Lawful() && Readable(chunks) && index + |chunks| <= 0x1_0000_0000 && j < |chunks|
    ensures StandsAt(EncodeFrames(a, prefix, chunks, index), Offset(chunks, j),
                     SealedChunk(a, prefix, index + j, chunks[j]))
  {
    hide SealedChunk, Frame;
    var first := Frame(a, prefix, index, chunks[0]);
    var tail := EncodeFrames(a, prefix, chunks[1..], index + 1);
    FrameLayout(a, prefix, index, chunks[0]);
    if j == 0 {
      assert (first + tail)[..|first|] == first;
    } else {
      FrameStandsAt(a, prefix, chunks[1..], index + 1, j - 1);
      hide StandsAt;
      ShiftedPart(first, tail, Offset(chunks[1..], j - 1), SealedChunk(a, prefix, index + j, chunks[j]));
    }
  }

  lemma ShiftedPart(head: Bytes, file: Bytes, at: nat, part: Bytes)
    requires StandsAt(file, at, part)
    ensures StandsAt(head + file, |head| + at, part)
  {
    assert (head + file)[|head| + at..|head| + at + |part|] == file[at..at + |part|];
  }

  /**
    An encoded file, byte by byte: "RVL1", the prefix, and for each chunk j,
    20 bytes and a chunk further on for each chunk before it, the length of
    what follows with its high byte first and the chunk encrypted under the
    prefix and j.
   */
  ghost predicate LaidOut(a: Aead, prefix: Bytes, chunks: seq<Bytes>, file: Bytes) {
    && |chunks| <= 0x1_0000_0000 && Readable(chunks)
    && |file| == 12 + |Flatten(chunks)| + 20 * |chunks|
    && StandsAt(file, 0, [0x52, 0x56, 0x4C, 0x31])
    && StandsAt(file, 4, prefix)
    && forall j: nat :: j < |chunks| ==> ChunkStandsAt(a, prefix, chunks, file, j)
  }

  ghost predicate ChunkStandsAt(a: Aead, prefix: Bytes, chunks: seq<Bytes>, file: Bytes, j: nat)
    requires j < |chunks| <= 0x1_0000_0000 && Readable(chunks)
  {
    var at := 12 + |Flatten(chunks[..j])| + 20 * j;
    StandsAt(file, at, Word(|chunks[j]| + 16)) && StandsAt(file, at + 4, a.encrypt(prefix + Word(j), chunks[j]))
  }

  lemma FileLayout(a: Aead, prefix: Bytes, chunks: seq<Bytes>)
    requires a.Lawful() && |prefix| == 8 && Readable(chunks) && |chunks| <= 0x1_0000_0000
    ensures LaidOut(a, prefix, chunks, Encode(a, prefix, chunks))
  {
    var file, frames := Encode(a, prefix, chunks), EncodeFrames(a, prefix, chunks, 0);
    assert file == (MAGIC + prefix) + frames;
    EncodedLength(a, prefix, chunks);
    forall j: nat | j < |chunks|
      ensures ChunkStandsAt(a, prefix, chunks, file, j)
    {
      hide Word, Encode, EncodeFrames, StandsAt;
      OffsetIs(chunks, j);
      FrameStandsAt(a, prefix, chunks, 0, j);
      var head, body := Word(|chunks[j]| + 16), a.encrypt(prefix + Word(j), chunks[j]);
      ShiftedPart(MAGIC + prefix, frames, Offset(chunks, j), head + body);
      PartsOfPart(file, 12 + Offset(chunks, j), head, body);
    }
  }

  lemma PartsOfPart(file: Bytes, at: nat, head: Bytes, body: Bytes)
    requires StandsAt(file, at, head + body)
    ensures StandsAt(file, at, head) && StandsAt(file, at + |head|, body)
  {
    var part := file[at..at + |head + body|];
    assert part[..|head|] == head && part[|head|..] == body;
  }

  lemma {:induction false} OffsetIs(chunks: seq<Bytes>, j: nat)
    requires j <= |chunks|
    ensures Offset(chunks, j) == |Flatten(chunks[..j])| + 20 * j
  {
    if j > 0 {
      OffsetIs(chunks[1..], j - 1);
      assert chunks[..j][1..] == chunks[1..][..j - 1];
    }
  }

  // ---------------------------------------------------------------- decoding any bytes

  /** Ciphertexts as they stand in a file, each after its length. */
  function Framed(sealed: seq<Bytes>): Bytes
    requires forall c <- sealed :: |c| < 0x1_0000_0000
  {
    if sealed == [] then [] else Word(|sealed[0]|) + sealed[0] + Framed(sealed[1..])
  }

  /** Every ciphertext authenticates under the prefix and its number, and hides its plaintext. */
  ghost predicate Opens(a: Aead, prefix: Bytes, sealed: seq<Bytes>, plains: seq<Bytes>, index: nat) {
    && |sealed| == |plains| && index + |sealed| <= 0x1_0000_0000
    && forall i :: 0 <= i < |sealed| ==>
         |sealed[i]| < 0x1_0000_0000 && a.decrypt(prefix + Word(index + i), sealed[i]) == Some(plains[i])
  }

  /** What stands where the next frame should, and the way reading it ends. */
  predicate StopsWith(a: Aead, prefix: Bytes, rest: Bytes, index: nat, outcome: Outcome) {
    match outcome
    case Finished => rest == []
    case TruncatedHeader => 0 < |rest| < 4
    case TruncatedChunk => |rest| >= 4 && |rest| - 4 < WordValue(rest[..4])
    case CounterOverflow => |rest| >= 4 && |rest| - 4 >= WordValue(rest[..4]) && index >= 0x1_0000_0000
    case InvalidTag =>
      && |rest| >= 4 && |rest| - 4 >= WordValue(rest[..4]) && index < 0x1_0000_0000
      && a.decrypt(prefix + Word(index), rest[4..4 + WordValue(rest[..4])]) == None
    case BadMagic => false
  }

  lemma WordRoundTrip(n: nat, rest: Bytes)
    requires n < 0x1_0000_0000
    ensures (Word(n) + rest)[..4] == Word(n) && (Word(n) + rest)[4..] == rest && WordValue(Word(n)) == n
  {
    assert WordValue(Word(n)) == n;
    hide Word, WordValue;
  }

  /** The frames are sealed, in order, with every byte of `bytes` before `rest` accounted for. */
  ghost predicate Splits(a: Aead, prefix: Bytes, bytes: Bytes, index: nat, sealed: seq<Bytes>, rest: Bytes,
                         plains: seq<Bytes>, outcome: Outcome)
  {
    && Opens(a, prefix, sealed, plains, index) && bytes == Framed(sealed) + rest
    && StopsWith(a, prefix, rest, index + |sealed|, outcome)
  }

  lemma StopsHere(a: Aead, prefix: Bytes, bytes: Bytes, index: nat, outcome: Outcome)
    requires StopsWith(a, prefix, bytes, index, outcome)
    ensures DecodeFrames(a, prefix, bytes, index) == Decoded([], outcome)
  {
    if |bytes| >= 4 {
      UnpackedIsValue(bytes[..4]);
    }
    if index < 0x1_0000_0000 {
      PackedIsWord(index);
    }
  }

  lemma GoesOn(a: Aead, prefix: Bytes, cipher: Bytes, tail: Bytes, index: nat, plain: Bytes)
    requires |cipher| < 0x1_0000_0000 && index < 0x1_0000_0000
    requires a.decrypt(prefix + Word(index), cipher) == Some(plain)
    ensures var d := DecodeFrames(a, prefix, tail, index + 1);
      DecodeFrames(a, prefix, Word(|cipher|) + cipher + tail, index) == Decoded([plain] + d.yielded, d.outcome)
  {
    var bytes := Word(|cipher|) + cipher + tail;
    assert bytes == Word(|cipher|) + (cipher + tail);
    WordRoundTrip(|cipher|, cipher + tail);
    UnpackedIsValue(bytes[..4]);
    PackedIsWord(index);
    assert bytes[4..][..|cipher|] == cipher && bytes[4..4 + |cipher|] == cipher;
    assert bytes[4 + |cipher|..] == tail;
  }

  lemma SplitTail(a: Aead, prefix: Bytes, bytes: Bytes, index: nat, sealed: seq<Bytes>, rest: Bytes,
                  plains: seq<Bytes>, outcome: Outcome)
    requires Splits(a, prefix, bytes, index, sealed, rest, plains, outcome) && sealed != []
    ensures |sealed[0]| < 0x1_0000_0000 && index < 0x1_0000_0000 && plains == [plains[0]] + plains[1..]
    ensures a.decrypt(prefix + Word(index), sealed[0]) == Some(plains[0])
    ensures forall c <- sealed[1..] :: |c| < 0x1_0000_0000
    ensures var tail := Framed(sealed[1..]) + rest;
      bytes == Word(|sealed[0]|) + sealed[0] + tail
      && Splits(a, prefix, tail, index + 1, sealed[1..], rest, plains[1..], outcome)
  {
    hide StopsWith, Word;
    assert sealed == [sealed[0]] + sealed[1..];
    assert Opens(a, prefix, sealed[1..], plains[1..], index + 1);
    var head := Word(|sealed[0]|) + sealed[0];
    assert head + Framed(sealed[1..]) + rest == head + (Framed(sealed[1..]) + rest);
  }

  lemma {:induction false} SplitDecodes(a: Aead, prefix: Bytes, bytes: Bytes, index: nat, sealed: seq<Bytes>, rest: Bytes,
                                        plains: seq<Bytes>, outcome: Outcome)
    requires Splits(a, prefix, bytes, index, sealed, rest, plains, outcome)
    ensures DecodeFrames(a, prefix, bytes, index) == Decoded(plains, outcome)
    decreases |sealed|
  {
    if sealed == [] {
      assert bytes == rest && plains == [];
      StopsHere(a, prefix, bytes, index, outcome);
    } else {
      SplitTail(a, prefix, bytes, index, sealed, rest, plains, outcome);
      hide Splits, Word, DecodeFrames, Framed;
      var tail := Framed(sealed[1..]) + rest;
      SplitDecodes(a, prefix, tail, index + 1, sealed[1..], rest, plains[1..], outcome);
      GoesOn(a, prefix, sealed[0], tail, index, plains[0]);
    }
  }

  /** There is no whole frame that authenticates at the head of the bytes. */
  predicate NoFrame(a: Aead, prefix: Bytes, bytes: Bytes, index: nat) {
    |bytes| < 4 || |bytes| - 4 < WordValue(bytes[..4]) || index >= 0x1_0000_0000
    || a.decrypt(prefix + Word(index), bytes[4..4 + WordValue(bytes[..4])]) == None
  }

  lemma NoFrameStops(a: Aead, prefix: Bytes, bytes: Bytes, index: nat)
    requires index <= 0x1_0000_0000 && NoFrame(a, prefix, bytes, index)
    ensures var d := DecodeFrames(a, prefix, bytes, index);
      Splits(a, prefix, bytes, index, [], bytes, d.yielded, d.outcome)
  {
    StopsHere(a, prefix, bytes, index,
      if |bytes| == 0 then Finished else if |bytes| < 4 then TruncatedHeader
      else if |bytes| - 4 < WordValue(bytes[..4]) then TruncatedChunk
      else if index >= 0x1_0000_0000 then CounterOverflow else InvalidTag);
    hide Word, WordValue;
  }

  lemma {:induction false} DecodedSplits(a: Aead, prefix: Bytes, bytes: Bytes, index: nat)
    returns (sealed: seq<Bytes>, rest: Bytes)
    requires index <= 0x1_0000_0000
    ensures var d := DecodeFrames(a, prefix, bytes, index);
      Splits(a, prefix, bytes, index, sealed, rest, d.yielded, d.outcome)
    decreases |bytes|
  {
    hide Splits, Word, WordValue, DecodeFrames, Framed;
    if NoFrame(a, prefix, bytes, index) {
      NoFrameStops(a, prefix, bytes, index);
      sealed, rest := [], bytes;
    } else {
      var length := WordValue(bytes[..4]);
      ValueRoundTrip(bytes[..4]);
      var cipher, tail := bytes[4..4 + length], bytes[4 + length..];
      var plain := a.decrypt(prefix + Word(index), cipher).value;
      var more;
      more, rest := DecodedSplits(a, prefix, tail, index + 1);
      sealed := [cipher] + more;
      assert bytes == Word(length) + cipher + tail;
      var d := DecodeFrames(a, prefix, tail, index + 1);
      GoesOn(a, prefix, cipher, tail, index, plain);
      OneMoreSealed(a, prefix, bytes, tail, index, cipher, more, rest, d.yielded, d.outcome);
    }
  }

  lemma ValueRoundTrip(w: Bytes)
    requires |w| == 4
    ensures WordValue(w) < 0x1_0000_0000 && Word(WordValue(w)) == w
  {
    UnpackedIsValue(w);
    FromBigEndianRoundTrip(w);
    PackedIsWord(WordValue(w));
    hide Word, WordValue;
  }

  lemma OneMoreSealed(a: Aead, prefix: Bytes, bytes: Bytes, tail: Bytes, index: nat, cipher: Bytes, more: seq<Bytes>,
                      rest: Bytes, plains: seq<Bytes>, outcome: Outcome)
    requires |cipher| < 0x1_0000_0000 && index < 0x1_0000_0000 && bytes == Word(|cipher|) + cipher + tail
    requires a.decrypt(prefix + Word(index), cipher).Some?
    requires Splits(a, prefix, tail, index + 1, more, rest, plains, outcome)
    ensures Splits(a, prefix, bytes, index, [cipher] + more, rest,
                   [a.decrypt(prefix + Word(index), cipher).value] + plains, outcome)
  {
    hide StopsWith, Word;
    var sealed := [cipher] + more;
    assert sealed[1..] == more;
    assert bytes == Framed(sealed) + rest;
  }

  /**
    Which bytes decode to what: after magic and prefix, a file decodes to
    `plains` and ends as it does exactly when it is made of ciphertexts, each
    behind its length and each authenticating, as the plaintext of its
    number, under the prefix and that number, and of what stops the reader.
   */
  lemma DecodeIff(a: Aead, file: Bytes, plains: seq<Bytes>, outcome: Outcome)
    requires |file| >= 12 && file[..4] == [0x52, 0x56, 0x4C, 0x31]
    ensures Decode(a, file) == Decoded(plains, outcome) <==>
            exists sealed, rest :: Splits(a, file[4..12], file[12..], 0, sealed, rest, plains, outcome)
  {
    var prefix, bytes := file[4..12], file[12..];
    hide Splits, DecodeFrames;
    assert Drop(file, |MAGIC|) == file[4..] && file[4..][..8] == prefix && file[4..][8..] == bytes;
    assert Decode(a, file) == DecodeFrames(a, prefix, bytes, 0);
    var sealed, rest := DecodedSplits(a, prefix, bytes, 0);
    if s, r :| Splits(a, prefix, bytes, 0, s, r, plains, outcome) {
      SplitDecodes(a, prefix, bytes, 0, s, r, plains, outcome);
    }
  }

  /** Without the magic nothing is decoded; a file that stops inside its prefix is an empty one. */
  lemma ShortFiles(a: Aead, file: Bytes)
    ensures Decode(a, file).outcome == BadMagic <==> |file| < 4 || file[..4] != [0x52, 0x56, 0x4C, 0x31]
    ensures Decode(a, file).outcome == BadMagic ==> Decode(a, file).yielded == []
    ensures 4 <= |file| <= 12 && file[..4] == [0x52, 0x56, 0x4C, 0x31] ==> Decode(a, file) == Decoded([], Finished)
  {
    if |file| >= 4 && file[..4] == MAGIC {
      var body := file[4..];
      NeverBadMagic(a, Take(body, NONCE_PREFIX_LEN), Drop(body, NONCE_PREFIX_LEN), 0);
    }
  }

  lemma {:induction false} NeverBadMagic(a: Aead, prefix: Bytes, bytes: Bytes, index: nat)
    ensures DecodeFrames(a, prefix, bytes, index).outcome != BadMagic
    decreases |bytes|
  {
    if |bytes| >= 4 {
      var length := FromBigEndian(bytes[..4]);
      if |bytes| - 4 >= length {
        NeverBadMagic(a, prefix, bytes[4 + length..], index + 1);
      }
    }
  }
}
