/**
  The chunked AES-256-GCM file format: what a well-formed file is, what reading
  any byte string as such a file yields, and how the two fit together.  The
  cipher is a parameter; only its round trip and its 16-byte overhead are used.
 */
module StreamFormat {
  import opened Wrappers
  import opened ByteStrings

  const MAGIC: Bytes := [0x52, 0x56, 0x4C, 0x31]  // "RVL1"
  const NONCE_PREFIX_LEN := 8
  const CHUNK_SIZE := 1024 * 1024
  const TAG_LEN := 16
  /** Frame counters and lengths are packed as ">I". */
  const UINT32_LIMIT := 0x1_0000_0000
  /** config.py: the cap on one upload. */
  const MAX_CONTENT_LENGTH := 1024 * 1024 * 1024 * 20

  /** AES-GCM under the vault's key: nonce and data to data. */
  datatype Aead = Aead(encrypt: (Bytes, Bytes) -> Bytes, decrypt: (Bytes, Bytes) -> Option<Bytes>) {
    ghost predicate Lawful() {
      forall nonce: Bytes, text: Bytes {:trigger encrypt(nonce, text)} ::
        decrypt(nonce, encrypt(nonce, text)) == Some(text) && |encrypt(nonce, text)| == |text| + TAG_LEN
    }
  }

  /** The assumption on the cipher is consistent: padding with 16 zero bytes satisfies it. */
  lemma LawfulCipherExists() returns (a: Aead)
    ensures a.Lawful()
  {
    var padding: Bytes := seq(TAG_LEN, _ => 0);
    a := Aead((nonce, text) => text + padding,
              (nonce, data) => if |data| < TAG_LEN then None else Some(data[..|data| - TAG_LEN]));
    forall nonce: Bytes, text: Bytes
      ensures a.decrypt(nonce, a.encrypt(nonce, text)) == Some(text)
    {
      assert (text + padding)[..|text|] == text;
    }
  }

  /** How a decoding ends; everything but Finished is an exception. */
  datatype Outcome = Finished | BadMagic | TruncatedHeader | TruncatedChunk | InvalidTag | CounterOverflow

  datatype Decoded = Decoded(yielded: seq<Bytes>, outcome: Outcome)

  function Nonce(prefix: Bytes, index: nat): Bytes {
    prefix + BigEndian(index, 4)
  }

  function Frame(a: Aead, prefix: Bytes, index: nat, chunk: Bytes): Bytes {
    var ciphertext := a.encrypt(Nonce(prefix, index), chunk);
    BigEndian(|ciphertext|, 4) + ciphertext
  }

  /** The frames of `chunks`, numbered from `index`. */
  function EncodeFrames(a: Aead, prefix: Bytes, chunks: seq<Bytes>, index: nat): Bytes {
    if chunks == [] then []
    else Frame(a, prefix, index, chunks[0]) + EncodeFrames(a, prefix, chunks[1..], index + 1)
  }

  function Encode(a: Aead, prefix: Bytes, chunks: seq<Bytes>): Bytes {
    MAGIC + prefix + EncodeFrames(a, prefix, chunks, 0)
  }

  function DecodeFrames(a: Aead, prefix: Bytes, rest: Bytes, index: nat): Decoded
    decreases |rest|
  {
    if rest == [] then Decoded([], Finished)
    else if |rest| < 4 then Decoded([], TruncatedHeader)
    else
      var length := FromBigEndian(rest[..4]);
      if |rest| - 4 < length then Decoded([], TruncatedChunk)
      else if index >= UINT32_LIMIT then Decoded([], CounterOverflow)
      else
        match a.decrypt(Nonce(prefix, index), rest[4..4 + length])
        case None => Decoded([], InvalidTag)
        case Some(plain) =>
          var tail := DecodeFrames(a, prefix, rest[4 + length..], index + 1);
          Decoded([plain] + tail.yielded, tail.outcome)
  }

  function Decode(a: Aead, file: Bytes): Decoded {
    if Take(file, |MAGIC|) != MAGIC then Decoded([], BadMagic)
    else
      var body := Drop(file, |MAGIC|);
      DecodeFrames(a, Take(body, NONCE_PREFIX_LEN), Drop(body, NONCE_PREFIX_LEN), 0)
  }

  /** What `input_stream.read(CHUNK_SIZE)` may return before the end of the input. */
  ghost predicate Readable(chunks: seq<Bytes>) {
    forall i :: 0 <= i < |chunks| ==> 0 < |chunks[i]| <= CHUNK_SIZE
  }

  /** Every read but the last returns a whole chunk. */
  ghost predicate FullReads(chunks: seq<Bytes>) {
    Readable(chunks) && forall i :: 0 <= i < |chunks| - 1 ==> |chunks[i]| == CHUNK_SIZE
  }

  // ---------------------------------------------------------------- layout

  /** Where frame j starts, counted from the end of the nonce prefix. */
  function Offset(chunks: seq<Bytes>, j: nat): nat
    requires j <= |chunks|
  {
    if j == 0 then 0 else |chunks[0]| + 4 + TAG_LEN + Offset(chunks[1..], j - 1)
  }

  lemma {:induction false} OffsetOfAll(chunks: seq<Bytes>)
    ensures Offset(chunks, |chunks|) == |Flatten(chunks)| + 20 * |chunks|
  {
    if chunks != [] {
      OffsetOfAll(chunks[1..]);
    }
  }

  lemma {:induction false} OffsetMonotone(chunks: seq<Bytes>, i: nat, j: nat)
    requires i < j <= |chunks|
    ensures Offset(chunks, i) < Offset(chunks, j)
  {
    if i > 0 {
      OffsetMonotone(chunks[1..], i - 1, j - 1);
    }
  }

  lemma {:induction false} FramesLength(a: Aead, prefix: Bytes, chunks: seq<Bytes>, index: nat)
    requires a.Lawful()
    ensures |EncodeFrames(a, prefix, chunks, index)| == Offset(chunks, |chunks|)
  {
    if chunks != [] {
      FramesLength(a, prefix, chunks[1..], index + 1);
      var _ := a.encrypt(Nonce(prefix, index), chunks[0]);
    }
  }

  lemma {:induction false} FramesSnoc(a: Aead, prefix: Bytes, chunks: seq<Bytes>, chunk: Bytes, index: nat)
    ensures EncodeFrames(a, prefix, chunks + [chunk], index)
         == EncodeFrames(a, prefix, chunks, index) + Frame(a, prefix, index + |chunks|, chunk)
  {
    if chunks == [] {
      assert [chunk][1..] == [];
      assert EncodeFrames(a, prefix, [chunk][1..], index + 1) == [];
    } else {
      FramesSnoc(a, prefix, chunks[1..], chunk, index + 1);
      assert (chunks + [chunk])[1..] == chunks[1..] + [chunk];
    }
  }

  /** An encoded file is 12 bytes of header, the plaintext, and 20 bytes for each chunk. */
  lemma EncodedLength(a: Aead, prefix: Bytes, chunks: seq<Bytes>)
    requires a.Lawful() && |prefix| == NONCE_PREFIX_LEN
    ensures |Encode(a, prefix, chunks)| == 12 + |Flatten(chunks)| + 20 * |chunks|
  {
    FramesLength(a, prefix, chunks, 0);
    OffsetOfAll(chunks);
  }

  lemma {:induction false} FullReadsFlattenLength(chunks: seq<Bytes>)
    requires FullReads(chunks) && chunks != []
    ensures |Flatten(chunks)| == CHUNK_SIZE * (|chunks| - 1) + |chunks[|chunks| - 1]|
  {
    if |chunks| == 1 {
      assert chunks[1..] == [];
      assert Flatten(chunks[1..]) == [];
    } else {
      var rest := chunks[1..];
      assert forall i :: 0 <= i < |rest| ==> rest[i] == chunks[i + 1];
      FullReadsFlattenLength(rest);
    }
  }

  /**
    With full reads the number of chunks is the plaintext length over 2^20,
    rounded up; an upload within the cap therefore never exhausts the 32-bit
    frame counter.
   */
  lemma UploadCapFitsCounter(a: Aead, prefix: Bytes, chunks: seq<Bytes>)
    requires a.Lawful() && |prefix| == NONCE_PREFIX_LEN && FullReads(chunks)
    ensures var n := |Flatten(chunks)|;
      && |chunks| == (n + CHUNK_SIZE - 1) / CHUNK_SIZE
      && |Encode(a, prefix, chunks)| == 12 + n + 20 * ((n + CHUNK_SIZE - 1) / CHUNK_SIZE)
      && (n <= MAX_CONTENT_LENGTH ==> |chunks| <= 20480 < UINT32_LIMIT)
  {
    EncodedLength(a, prefix, chunks);
    if chunks != [] {
      FullReadsFlattenLength(chunks);
    }
  }

  /** No nonce is used twice within one file. */
  lemma NoncesDistinct(prefix: Bytes, i: nat, j: nat)
    requires i < UINT32_LIMIT && j < UINT32_LIMIT
    ensures Nonce(prefix, i) == Nonce(prefix, j) <==> i == j
  {
    PackedRanges();
    BigEndianRoundTrip(i, 4);
    BigEndianRoundTrip(j, 4);
    assert Nonce(prefix, i)[|prefix|..] == BigEndian(i, 4);
    assert Nonce(prefix, j)[|prefix|..] == BigEndian(j, 4);
  }

  // ---------------------------------------------------------------- cut points

  /** How many whole frames fit in the first m bytes of the frame area. */
  function WholeFrames(chunks: seq<Bytes>, m: nat): (j: nat)
    ensures j <= |chunks| && Offset(chunks, j) <= m
    ensures j < |chunks| ==> m < Offset(chunks, j + 1)
  {
    if chunks == [] || m < |chunks[0]| + 4 + TAG_LEN then 0
    else 1 + WholeFrames(chunks[1..], m - (|chunks[0]| + 4 + TAG_LEN))
  }

  /** The error with which a decoder stops `excess` bytes into a frame. */
  function CutOutcome(excess: nat): Outcome {
    if excess == 0 then Finished else if excess < 4 then TruncatedHeader else TruncatedChunk
  }

  /** Reading one frame followed by anything yields its chunk and goes on. */
  lemma DecodeOneFrame(a: Aead, prefix: Bytes, chunk: Bytes, rest: Bytes, index: nat)
    requires a.Lawful() && |chunk| <= CHUNK_SIZE && index < UINT32_LIMIT
    ensures var tail := DecodeFrames(a, prefix, rest, index + 1);
      DecodeFrames(a, prefix, Frame(a, prefix, index, chunk) + rest, index)
      == Decoded([chunk] + tail.yielded, tail.outcome)
  {
    var ciphertext := a.encrypt(Nonce(prefix, index), chunk);
    var data := Frame(a, prefix, index, chunk) + rest;
    PackedRanges();
    BigEndianRoundTrip(|ciphertext|, 4);
    assert data[..4] == BigEndian(|ciphertext|, 4);
    assert data[4..4 + |ciphertext|] == ciphertext;
    assert data[4 + |ciphertext|..] == rest;
  }

  /** A frame cut short stops the decoder with the matching error. */
  lemma DecodeCutFrame(a: Aead, prefix: Bytes, chunk: Bytes, m: nat, index: nat)
    requires a.Lawful() && |chunk| <= CHUNK_SIZE && m < |chunk| + 4 + TAG_LEN
    requires m <= |Frame(a, prefix, index, chunk)|
    ensures DecodeFrames(a, prefix, Frame(a, prefix, index, chunk)[..m], index) == Decoded([], CutOutcome(m))
  {
    var ciphertext := a.encrypt(Nonce(prefix, index), chunk);
    PackedRanges();
    BigEndianRoundTrip(|ciphertext|, 4);
    if m >= 4 {
      assert Frame(a, prefix, index, chunk)[..m][..4] == BigEndian(|ciphertext|, 4);
    }
  }

  /** A cut of first + tail falls in first or leaves first whole. */
  lemma CutOfConcat(first: Bytes, tail: Bytes, m: nat)
    requires m <= |first| + |tail|
    ensures (first + tail)[..m] == if m < |first| then first[..m] else first + tail[..m - |first|]
  {
  }

  /** What the first m bytes of the frames of `chunks` decode to. */
  function CutFrames(chunks: seq<Bytes>, m: nat): Decoded {
    var j := WholeFrames(chunks, m);
    Decoded(chunks[..j], CutOutcome(m - Offset(chunks, j)))
  }

  lemma PrependChunk(chunks: seq<Bytes>, m: nat)
    requires chunks != [] && m >= |chunks[0]| + 4 + TAG_LEN
    ensures var tail := CutFrames(chunks[1..], m - (|chunks[0]| + 4 + TAG_LEN));
      CutFrames(chunks, m) == Decoded([chunks[0]] + tail.yielded, tail.outcome)
  {
    var j := WholeFrames(chunks[1..], m - (|chunks[0]| + 4 + TAG_LEN));
    assert [chunks[0]] + chunks[1..][..j] == chunks[..j + 1];
  }

  lemma PrependFrame(a: Aead, prefix: Bytes, chunks: seq<Bytes>, tail: Bytes, index: nat, m: nat)
    requires a.Lawful() && chunks != [] && |chunks[0]| <= CHUNK_SIZE && index < UINT32_LIMIT
    requires var size := |chunks[0]| + 4 + TAG_LEN;
      && size <= m <= size + |tail|
      && DecodeFrames(a, prefix, tail[..m - size], index + 1) == CutFrames(chunks[1..], m - size)
    ensures DecodeFrames(a, prefix, (Frame(a, prefix, index, chunks[0]) + tail)[..m], index) == CutFrames(chunks, m)
  {
    var first := Frame(a, prefix, index, chunks[0]);
    var _ := a.encrypt(Nonce(prefix, index), chunks[0]);
    CutOfConcat(first, tail, m);
    DecodeOneFrame(a, prefix, chunks[0], tail[..m - |first|], index);
    PrependChunk(chunks, m);
  }

  lemma {:induction false} DecodeCutFrames(a: Aead, prefix: Bytes, chunks: seq<Bytes>, index: nat, m: nat)
    requires a.Lawful() && Readable(chunks) && index + |chunks| <= UINT32_LIMIT
    requires m <= |EncodeFrames(a, prefix, chunks, index)|
    ensures DecodeFrames(a, prefix, EncodeFrames(a, prefix, chunks, index)[..m], index) == CutFrames(chunks, m)
  {
    if chunks == [] {
    } else {
      var first := Frame(a, prefix, index, chunks[0]);
      var tail := EncodeFrames(a, prefix, chunks[1..], index + 1);
      var _ := a.encrypt(Nonce(prefix, index), chunks[0]);
      if m < |first| {
        CutOfConcat(first, tail, m);
        DecodeCutFrame(a, prefix, chunks[0], m, index);
      } else {
        DecodeCutFrames(a, prefix, chunks[1..], index + 1, m - |first|);
        PrependFrame(a, prefix, chunks, tail, index, m);
      }
    }
  }

  /** The position of byte k of a file lies strictly inside its magic or one of its frames. */
  ghost predicate InsideUnit(chunks: seq<Bytes>, k: nat) {
    k < 4 || (k > 12 && InsideFrame(chunks, k - 12))
  }

  ghost predicate InsideFrame(chunks: seq<Bytes>, m: nat) {
    exists j: nat | j < |chunks| :: Offset(chunks, j) < m && m < Offset(chunks, j + 1)
  }

  lemma CutIsInside(chunks: seq<Bytes>, m: nat)
    ensures var j := WholeFrames(chunks, m);
      InsideFrame(chunks, m) <==> j < |chunks| && m != Offset(chunks, j)
  {
    var j := WholeFrames(chunks, m);
    if j < |chunks| && m != Offset(chunks, j) {
      assert Offset(chunks, j) < m && m < Offset(chunks, j + 1);
    }
    if InsideFrame(chunks, m) {
      var i: nat :| i < |chunks| && Offset(chunks, i) < m && m < Offset(chunks, i + 1);
      if i < j && i + 1 < j {
        OffsetMonotone(chunks, i + 1, j);
      } else if j < i && j + 1 < i {
        OffsetMonotone(chunks, j + 1, i);
      }
    }
  }

  lemma DecodeCutFile(a: Aead, prefix: Bytes, frames: Bytes, k: nat)
    requires |prefix| == NONCE_PREFIX_LEN && k <= 12 + |frames|
    ensures Decode(a, (MAGIC + prefix + frames)[..k]) ==
      if k < 4 then Decoded([], BadMagic)
      else if k <= 12 then Decoded([], Finished)
      else DecodeFrames(a, prefix, frames[..k - 12], 0)
  {
    var cut := (MAGIC + prefix + frames)[..k];
    if k < 4 {
      assert |Take(cut, |MAGIC|)| < 4;
    } else {
      assert Take(cut, |MAGIC|) == MAGIC;
      var body := Drop(cut, |MAGIC|);
      if k <= 12 {
        assert Drop(body, NONCE_PREFIX_LEN) == [];
      } else {
        assert Take(body, NONCE_PREFIX_LEN) == prefix;
        assert Drop(body, NONCE_PREFIX_LEN) == frames[..k - 12];
      }
    }
  }

  /** What the first k bytes of a file holding `chunks` decode to. */
  function CutResult(chunks: seq<Bytes>, k: nat): Decoded {
    if k < 4 then Decoded([], BadMagic)
    else if k < 12 then Decoded([], Finished)
    else CutFrames(chunks, k - 12)
  }

  /**
    Cut-point theorem.  The first k bytes of an encoded file yield exactly the
    chunks whose frames are complete, and reading them raises an error exactly
    when k falls inside the magic or strictly inside a frame.
   */
  lemma CutPoint(a: Aead, prefix: Bytes, chunks: seq<Bytes>, k: nat)
    requires a.Lawful() && |prefix| == NONCE_PREFIX_LEN
    requires Readable(chunks) && |chunks| <= UINT32_LIMIT
    requires k <= |Encode(a, prefix, chunks)|
    ensures var d := Decode(a, Encode(a, prefix, chunks)[..k]);
      && d == CutResult(chunks, k)
      && d.yielded <= chunks
      && (d.outcome != Finished <==> InsideUnit(chunks, k))
  {
    assert Decode(a, Encode(a, prefix, chunks)[..k]) == CutResult(chunks, k) by {
      var frames := EncodeFrames(a, prefix, chunks, 0);
      DecodeCutFile(a, prefix, frames, k);
      if k >= 12 {
        DecodeCutFrames(a, prefix, chunks, 0, k - 12);
        assert k == 12 ==> frames[..0] == [];
      }
    }
    if k >= 12 {
      FramesLength(a, prefix, chunks, 0);
      CutIsInside(chunks, k - 12);
    }
  }

  /** Decoding an encoded file yields exactly its chunks, in order, without error. */
  lemma RoundTrip(a: Aead, prefix: Bytes, chunks: seq<Bytes>)
    requires a.Lawful() && |prefix| == NONCE_PREFIX_LEN
    requires Readable(chunks) && |chunks| <= UINT32_LIMIT
    ensures Decode(a, Encode(a, prefix, chunks)) == Decoded(chunks, Finished)
  {
    var file := Encode(a, prefix, chunks);
    assert file[..|file|] == file;
    CutPoint(a, prefix, chunks, |file|);
    FramesLength(a, prefix, chunks, 0);
    var j := WholeFrames(chunks, |file| - 12);
    if j < |chunks| {
      if j + 1 < |chunks| { OffsetMonotone(chunks, j + 1, |chunks|); }
      assert false;
    }
  }
}
