/**
  The read loops that write and read the chunked format, once over an
  in-memory buffer and once over a Large Object.  Both pairs are proved against
  the same two functions of StreamFormat, and what they write byte by byte.
 */
module CryptoService {
  import opened Wrappers
  import opened ByteStrings
  import opened StreamFormat
  import opened StreamLayout
  import opened LargeObjects

  datatype CryptoError = StructError | NoSuchObject

  datatype Upload<T> = Upload(stored: T, size: nat, sha256: string)

  /** A file-like input; `pending` is what its reads are going to return before the end. */
  class InputStream {
    var pending: seq<Bytes>

    constructor (chunks: seq<Bytes>)
      ensures pending == chunks
    {
      pending := chunks;
    }

    /** `read(CHUNK_SIZE)`: the next chunk, or the empty string at the end of the input. */
    method Read() returns (chunk: Bytes)
      requires Readable(pending)
      modifies this
      ensures Readable(pending)
      ensures old(pending) == [] ==> chunk == [] && pending == []
      ensures old(pending) != [] ==> chunk == old(pending)[0] != [] && pending == old(pending)[1..]
    {
      if pending == [] {
        chunk := [];
      } else {
        chunk := pending[0];
        pending := pending[1..];
      }
    }
  }

  /** `io.BytesIO` opened on existing bytes. */
  class ByteReader {
    const data: Bytes
    var pos: nat

    constructor (data: Bytes)
      ensures this.data == data && pos == 0
    {
      this.data := data;
      this.pos := 0;
    }

    method Read(n: nat) returns (part: Bytes)
      requires pos <= |data|
      modifies this
      ensures pos == old(pos) + |part| <= |data|
      ensures part == Take(data[old(pos)..], n)
      ensures data[pos..] == Drop(data[old(pos)..], n)
    {
      var end := if pos + n <= |data| then pos + n else |data|;
      part := data[pos..end];
      pos := end;
    }
  }

  lemma EncodeSnoc(a: Aead, prefix: Bytes, chunks: seq<Bytes>, chunk: Bytes)
    ensures Encode(a, prefix, chunks + [chunk])
         == Encode(a, prefix, chunks) + Frame(a, prefix, |chunks|, chunk)
  {
    FramesSnoc(a, prefix, chunks, chunk, 0);
  }

  lemma SplitHead(done: seq<Bytes>, pending: seq<Bytes>)
    requires pending != []
    ensures done + pending == done + [pending[0]] + pending[1..]
  {
  }

  /**
    Encrypts a stream into a byte string.  Fails only when the 32-bit frame
    counter runs out, which takes more than 2^32 reads.
   */
  method EncryptStream(a: Aead, noncePrefix: Bytes, sha256: Bytes -> string, input: InputStream)
    returns (r: Result<Upload<Bytes>, CryptoError>)
    requires a.Lawful() && Readable(input.pending)
    modifies input
    ensures var chunks := old(input.pending);
      r == if |chunks| > UINT32_LIMIT then Err(StructError)
           else Ok(Upload(Encode(a, noncePrefix, chunks), |Flatten(chunks)|, sha256(Flatten(chunks))))
    ensures |noncePrefix| == 8 && r.Ok? ==> LaidOut(a, noncePrefix, old(input.pending), r.value.stored)
  {
    ghost var chunks := input.pending;
    ghost var done: seq<Bytes> := [];
    var hashed: Bytes := [];
    var totalBytes := 0;
    var chunkIndex := 0;
    var out := MAGIC + noncePrefix;
    while true
      invariant Readable(input.pending) && chunks == done + input.pending
      invariant chunkIndex == |done| <= UINT32_LIMIT
      invariant hashed == Flatten(done) && totalBytes == |hashed|
      invariant out == Encode(a, noncePrefix, done)
      decreases |input.pending|
    {
      ghost var before := input.pending;
      var chunk := input.Read();
      if chunk == [] {
        break;
      }
      totalBytes := totalBytes + |chunk|;
      hashed := hashed + chunk;
      if chunkIndex >= UINT32_LIMIT {
        return Err(StructError);
      }
      var nonce := Nonce(noncePrefix, chunkIndex);
      var ciphertext := a.encrypt(nonce, chunk);
      SplitHead(done, before);
      EncodeSnoc(a, noncePrefix, done, chunk);
      FlattenSnoc(done, chunk);
      out := out + BigEndian(|ciphertext|, 4);
      out := out + ciphertext;
      chunkIndex := chunkIndex + 1;
      done := done + [chunk];
    }
    assert done == chunks;
    if |noncePrefix| == 8 {
      FileLayout(a, noncePrefix, chunks);
    }
    r := Ok(Upload(out, totalBytes, sha256(hashed)));
  }

  /** After `yielded` has been produced, what remains of the file decides the rest. */
  ghost predicate SoFar(a: Aead, file: Bytes, prefix: Bytes, yielded: seq<Bytes>, rest: Bytes, index: nat) {
    var tail := DecodeFrames(a, prefix, rest, index);
    Decode(a, file) == Decoded(yielded + tail.yielded, tail.outcome)
  }

  lemma Stop(a: Aead, file: Bytes, prefix: Bytes, yielded: seq<Bytes>, rest: Bytes, index: nat, outcome: Outcome)
    requires SoFar(a, file, prefix, yielded, rest, index)
    requires DecodeFrames(a, prefix, rest, index) == Decoded([], outcome)
    ensures Decode(a, file) == Decoded(yielded, outcome)
  {
    assert yielded + [] == yielded;
  }

  lemma NextFrame(a: Aead, file: Bytes, prefix: Bytes, yielded: seq<Bytes>, rest: Bytes, index: nat, length: nat)
    requires SoFar(a, file, prefix, yielded, rest, index) && index < UINT32_LIMIT
    requires |rest| >= 4 && length == FromBigEndian(rest[..4]) && |rest| - 4 >= length
    ensures match a.decrypt(Nonce(prefix, index), rest[4..4 + length])
      case None => Decode(a, file) == Decoded(yielded, InvalidTag)
      case Some(plain) => SoFar(a, file, prefix, yielded + [plain], rest[4 + length..], index + 1)
  {
    match a.decrypt(Nonce(prefix, index), rest[4..4 + length])
    case None =>
      Stop(a, file, prefix, yielded, rest, index, InvalidTag);
    case Some(plain) =>
      var tail := DecodeFrames(a, prefix, rest[4 + length..], index + 1).yielded;
      assert yielded + ([plain] + tail) == yielded + [plain] + tail;
  }

  /** The four ways a file can end without a frame to decrypt. */
  lemma Halts(a: Aead, prefix: Bytes, rest: Bytes, index: nat)
    ensures |rest| == 0 ==> DecodeFrames(a, prefix, rest, index) == Decoded([], Finished)
    ensures 0 < |rest| < 4 ==> DecodeFrames(a, prefix, rest, index) == Decoded([], TruncatedHeader)
    ensures |rest| >= 4 && |rest| - 4 < FromBigEndian(rest[..4]) ==>
              DecodeFrames(a, prefix, rest, index) == Decoded([], TruncatedChunk)
    ensures |rest| >= 4 && |rest| - 4 >= FromBigEndian(rest[..4]) && index >= UINT32_LIMIT ==>
              DecodeFrames(a, prefix, rest, index) == Decoded([], CounterOverflow)
  {
    hide FromBigEndian, Nonce;
  }

  /** Reads any byte string as an encoded file, frame by frame. */
  method DecryptStream(a: Aead, encrypted: Bytes) returns (d: Decoded)
    ensures d == Decode(a, encrypted)
  {
    var f := new ByteReader(encrypted);
    assert encrypted[0..] == encrypted;
    var magic := f.Read(|MAGIC|);
    if magic != MAGIC {
      return Decoded([], BadMagic);
    }
    var noncePrefix := f.Read(NONCE_PREFIX_LEN);
    var yielded: seq<Bytes> := [];
    var chunkIndex := 0;
    assert SoFar(a, encrypted, noncePrefix, [], f.data[f.pos..], 0);
    hide SoFar, Decode, DecodeFrames, Nonce, FromBigEndian;
    while true
      invariant f.pos <= |f.data| && f.data == encrypted
      invariant SoFar(a, encrypted, noncePrefix, yielded, f.data[f.pos..], chunkIndex)
      decreases |encrypted| - f.pos
    {
      ghost var rest := f.data[f.pos..];
      Halts(a, noncePrefix, rest, chunkIndex);
      var lengthBytes := f.Read(4);
      if lengthBytes == [] {
        Stop(a, encrypted, noncePrefix, yielded, rest, chunkIndex, Finished);
        return Decoded(yielded, Finished);
      }
      if |lengthBytes| != 4 {
        Stop(a, encrypted, noncePrefix, yielded, rest, chunkIndex, TruncatedHeader);
        return Decoded(yielded, TruncatedHeader);
      }
      var length := FromBigEndian(lengthBytes);
      var ciphertext := f.Read(length);
      if |ciphertext| != length {
        Stop(a, encrypted, noncePrefix, yielded, rest, chunkIndex, TruncatedChunk);
        return Decoded(yielded, TruncatedChunk);
      }
      assert ciphertext == rest[4..4 + length] && f.data[f.pos..] == rest[4 + length..];
      if chunkIndex >= UINT32_LIMIT {
        Stop(a, encrypted, noncePrefix, yielded, rest, chunkIndex, CounterOverflow);
        return Decoded(yielded, CounterOverflow);
      }
      NextFrame(a, encrypted, noncePrefix, yielded, rest, chunkIndex, length);
      var plaintext := a.decrypt(Nonce(noncePrefix, chunkIndex), ciphertext);
      if plaintext == None {
        return Decoded(yielded, InvalidTag);
      }
      yielded := yielded + [plaintext.value];
      chunkIndex := chunkIndex + 1;
    }
  }

  /** The two writes that append one frame to a Large Object. */
  method WriteFrame(lo: LObject, ciphertext: Bytes)
    requires lo.conn.Valid() && lo.oid in lo.conn.objects && lo.pos == |lo.conn.objects[lo.oid]|
    modifies lo, lo.conn`objects
    ensures lo.conn.Valid()
    ensures var was := old(lo.conn.objects[lo.oid]);
      lo.conn.objects == old(lo.conn.objects)[lo.oid := was + (BigEndian(|ciphertext|, 4) + ciphertext)]
    ensures lo.pos == |lo.conn.objects[lo.oid]|
  {
    ghost var was := lo.conn.objects[lo.oid];
    lo.Write(BigEndian(|ciphertext|, 4));
    lo.Write(ciphertext);
    assert lo.conn.objects[lo.oid] == was + (BigEndian(|ciphertext|, 4) + ciphertext);
  }

  lemma OneObjectMore(objects: map<nat, Bytes>, oid: nat, file: Bytes)
    requires oid !in objects
    ensures objects[oid := file] - {oid} == objects
  {
  }

  /** Encrypts a stream straight into a new Large Object, write by write. */
  method EncryptToLargeObject(a: Aead, noncePrefix: Bytes, sha256: Bytes -> string, conn: PgConn, input: InputStream)
    returns (r: Result<Upload<nat>, CryptoError>)
    requires a.Lawful() && Readable(input.pending) && conn.Valid()
    modifies input, conn
    ensures conn.Valid()
    ensures var chunks := old(input.pending); var oid := old(conn.nextOid);
      if |chunks| > UINT32_LIMIT then
        r == Err(StructError) && conn.objects - {oid} == old(conn.objects)
      else
        && r == Ok(Upload(oid, |Flatten(chunks)|, sha256(Flatten(chunks))))
        && oid !in old(conn.objects)
        && conn.objects == old(conn.objects)[oid := Encode(a, noncePrefix, chunks)]
        && (|noncePrefix| == 8 ==> LaidOut(a, noncePrefix, chunks, conn.objects[oid]))
  {
    ghost var chunks := input.pending;
    ghost var objects := conn.objects;
    ghost var done: seq<Bytes> := [];
    var hashed: Bytes := [];
    var totalBytes := 0;
    var chunkIndex := 0;
    var lo := conn.Create();
    lo.Write(MAGIC);
    lo.Write(noncePrefix);
    ghost var file := MAGIC + noncePrefix;
    assert conn.objects[lo.oid] == file;
    assert file == Encode(a, noncePrefix, done);
    assert hashed == Flatten(done);
    hide Encode, Flatten, BigEndian, LaidOut;
    while true
      invariant Readable(input.pending) && chunks == done + input.pending
      invariant chunkIndex == |done| <= UINT32_LIMIT
      invariant hashed == Flatten(done) && totalBytes == |hashed|
      invariant lo.conn == conn && conn.Valid() && lo.oid == old(conn.nextOid)
      invariant conn.objects == objects[lo.oid := file] && lo.pos == |file|
      invariant file == Encode(a, noncePrefix, done)
      decreases |input.pending|
    {
      ghost var before := input.pending;
      var chunk := input.Read();
      if chunk == [] {
        break;
      }
      totalBytes := totalBytes + |chunk|;
      hashed := hashed + chunk;
      if chunkIndex >= UINT32_LIMIT {
        OneObjectMore(objects, lo.oid, file);
        return Err(StructError);
      }
      var nonce := Nonce(noncePrefix, chunkIndex);
      var ciphertext := a.encrypt(nonce, chunk);
      SplitHead(done, before);
      EncodeSnoc(a, noncePrefix, done, chunk);
      FlattenSnoc(done, chunk);
      WriteFrame(lo, ciphertext);
      file := file + Frame(a, noncePrefix, chunkIndex, chunk);
      chunkIndex := chunkIndex + 1;
      done := done + [chunk];
    }
    assert done == chunks;
    if |noncePrefix| == 8 {
      FileLayout(a, noncePrefix, chunks);
    }
    r := Ok(Upload(lo.oid, totalBytes, sha256(hashed)));
  }

  /** Reads a Large Object as an encoded file; the object is left as it is. */
  method DecryptFromLargeObject(a: Aead, conn: PgConn, oid: nat) returns (r: Result<Decoded, CryptoError>)
    ensures r == if oid in conn.objects then Ok(Decode(a, conn.objects[oid])) else Err(NoSuchObject)
  {
    if oid !in conn.objects {
      return Err(NoSuchObject);
    }
    var lo := new LObject(conn, oid);
    ghost var file := conn.objects[oid];
    assert file[0..] == file;
    var magic := lo.Read(|MAGIC|);
    if magic != MAGIC {
      return Ok(Decoded([], BadMagic));
    }
    var noncePrefix := lo.Read(NONCE_PREFIX_LEN);
    var yielded: seq<Bytes> := [];
    var chunkIndex := 0;
    assert SoFar(a, file, noncePrefix, [], file[lo.pos..], 0);
    while true
      invariant lo.pos <= |file|
      invariant SoFar(a, file, noncePrefix, yielded, file[lo.pos..], chunkIndex)
      decreases |file| - lo.pos
    {
      ghost var rest := file[lo.pos..];
      var lengthBytes := lo.Read(4);
      if lengthBytes == [] {
        Stop(a, file, noncePrefix, yielded, rest, chunkIndex, Finished);
        return Ok(Decoded(yielded, Finished));
      }
      if |lengthBytes| != 4 {
        Stop(a, file, noncePrefix, yielded, rest, chunkIndex, TruncatedHeader);
        return Ok(Decoded(yielded, TruncatedHeader));
      }
      var length := FromBigEndian(lengthBytes);
      var ciphertext := lo.Read(length);
      if |ciphertext| != length {
        Stop(a, file, noncePrefix, yielded, rest, chunkIndex, TruncatedChunk);
        return Ok(Decoded(yielded, TruncatedChunk));
      }
      assert ciphertext == rest[4..4 + length] && file[lo.pos..] == rest[4 + length..];
      if chunkIndex >= UINT32_LIMIT {
        Stop(a, file, noncePrefix, yielded, rest, chunkIndex, CounterOverflow);
        return Ok(Decoded(yielded, CounterOverflow));
      }
      NextFrame(a, file, noncePrefix, yielded, rest, chunkIndex, length);
      var plaintext := a.decrypt(Nonce(noncePrefix, chunkIndex), ciphertext);
      if plaintext == None {
        return Ok(Decoded(yielded, InvalidTag));
      }
      yielded := yielded + [plaintext.value];
      chunkIndex := chunkIndex + 1;
    }
  }
}
