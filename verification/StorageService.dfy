/** Where an upload's ciphertext lives: a Large Object on Postgres, a column on SQLite. */
module StorageService {
  import opened Wrappers
  import opened ByteStrings
  import opened StreamFormat
  import opened LargeObjects
  import opened CryptoService

  /** The loot file columns an upload fills in. */
  datatype LootContent = LootContent(contentOid: Option<nat>, encryptedContent: Option<Bytes>, size: nat, sha256: string)

  /** The stored ciphertext of a row, whichever column holds it. */
  function Stored(loot: LootContent, objects: map<nat, Bytes>): Option<Bytes> {
    match loot.contentOid
    case Some(oid) => if oid in objects then Some(objects[oid]) else None
    case None => loot.encryptedContent
  }

  /**
    Exactly one of the two columns is filled, by dialect, and on both dialects
    the stored bytes, the size and the digest are the same for the same reads.
   */
  method SaveUpload(isPostgres: bool, a: Aead, noncePrefix: Bytes, sha256: Bytes -> string, conn: PgConn, input: InputStream)
    returns (r: Result<LootContent, CryptoError>)
    requires a.Lawful() && Readable(input.pending) && conn.Valid()
    modifies input, conn
    ensures conn.Valid()
    ensures r.Err? <==> |old(input.pending)| > UINT32_LIMIT
    ensures forall oid :: oid in old(conn.objects) ==> oid in conn.objects && conn.objects[oid] == old(conn.objects[oid])
    ensures r.Ok? ==>
      var chunks := old(input.pending);
      && r.value.contentOid.Some? == isPostgres
      && r.value.encryptedContent.Some? == !isPostgres
      && Stored(r.value, conn.objects) == Some(Encode(a, noncePrefix, chunks))
      && r.value.size == |Flatten(chunks)|
      && r.value.sha256 == sha256(Flatten(chunks))
      && (isPostgres ==> r.value.contentOid.value !in old(conn.objects))
  {
    if isPostgres {
      var saved := EncryptToLargeObject(a, noncePrefix, sha256, conn, input);
      match saved {
        case Err(error) => r := Err(error);
        case Ok(up) => r := Ok(LootContent(Some(up.stored), None, up.size, up.sha256));
      }
    } else {
      var saved := EncryptStream(a, noncePrefix, sha256, input);
      match saved {
        case Err(error) => r := Err(error);
        case Ok(up) => r := Ok(LootContent(None, Some(up.stored), up.size, up.sha256));
      }
    }
  }

  /** A row with neither column reads as the empty file, which has no magic. */
  method StreamDownload(a: Aead, conn: PgConn, loot: LootContent) returns (r: Result<Decoded, CryptoError>)
    ensures r == match Stored(loot, conn.objects)
                 case Some(file) => Ok(Decode(a, file))
                 case None => if loot.contentOid.Some? then Err(NoSuchObject) else Ok(Decoded([], BadMagic))
  {
    if loot.contentOid.Some? {
      r := DecryptFromLargeObject(a, conn, loot.contentOid.value);
    } else {
      var d := DecryptStream(a, if loot.encryptedContent.Some? then loot.encryptedContent.value else []);
      r := Ok(d);
    }
  }

  /** Whatever was uploaded is what a later download yields, chunk for chunk, on either dialect. */
  method UploadThenDownload(isPostgres: bool, a: Aead, noncePrefix: Bytes, sha256: Bytes -> string, conn: PgConn,
                            input: InputStream)
    returns (r: Result<Decoded, CryptoError>)
    requires a.Lawful() && |noncePrefix| == NONCE_PREFIX_LEN && Readable(input.pending) && conn.Valid()
    modifies input, conn
    ensures r == if |old(input.pending)| > UINT32_LIMIT then Err(StructError)
                 else Ok(Decoded(old(input.pending), Finished))
  {
    ghost var chunks := input.pending;
    var saved := SaveUpload(isPostgres, a, noncePrefix, sha256, conn, input);
    match saved {
      case Err(error) =>
        r := Err(StructError);
      case Ok(loot) =>
        RoundTrip(a, noncePrefix, chunks);
        r := StreamDownload(a, conn, loot);
    }
  }
}
