/** The law of the loot-only scope: what it backs up, reattaching puts back where loot storage was lost. */
module LootRecovery {
  import opened Wrappers
  import opened ByteStrings
  import opened LargeObjects
  import opened Numerals
  import opened Database
  import opened Archive
  import opened RestorePlan
  import opened RestoreContents
  import opened RestoreRoundTrip
  import opened RestoreTheorems
  import opened ArchiveContents
  import opened Sessions
  import opened BackupService
  import opened RestoreService

  /** Every loot file with contents holds them again; the others are as they were found. */
  ghost predicate LootIsBack(isPostgres: bool, rows: seq<Row>, objects: map<nat, Bytes>, found: seq<Row>, after: seq<Row>,
                             afterObjects: map<nat, Bytes>)
  {
    && |after| == |rows| == |found|
    && (forall k, bytes: Bytes :: 0 <= k < |rows| && bytes != [] && HasContent(rows[k], objects, bytes) ==>
          Holds(isPostgres, after[k], afterObjects, Some(bytes)))
    && (forall k :: 0 <= k < |rows| && !HasSome(rows[k], objects) ==> after[k] == found[k])
  }

  lemma LootRowIsBack(isPostgres: bool, was: map<nat, Bytes>, row: Row, objects: map<nat, Bytes>, found: Row, after: Row,
                      afterObjects: map<nat, Bytes>, blobs: Blobs)
    requires Cell(row, "id") == Cell(found, "id") && RowReattached(isPostgres, was, found, after, afterObjects, blobs)
    requires BlobFor(blobs, Cell(row, "id")) == if HasBlob(row, objects) then LootBlob(row, objects) else None
    ensures forall bytes: Bytes :: bytes != [] && HasContent(row, objects, bytes) ==>
              Holds(isPostgres, after, afterObjects, Some(bytes))
    ensures !HasSome(row, objects) ==> after == found
  {
    BlobIsContent(row, objects);
    hide BlobFor, Holds;
  }

  lemma RowsComeBack(isPostgres: bool, was: map<nat, Bytes>, rows: seq<Row>, objects: map<nat, Bytes>, found: seq<Row>,
                     after: seq<Row>, afterObjects: map<nat, Bytes>, blobs: Blobs)
    requires RowsAgree(LOOT_FILES, rows, found) && |after| == |found|
    requires forall k :: 0 <= k < |found| ==> RowReattached(isPostgres, was, found[k], after[k], afterObjects, blobs)
    requires forall k :: 0 <= k < |rows| ==>
      BlobFor(blobs, Cell(rows[k], "id")) == if HasBlob(rows[k], objects) then LootBlob(rows[k], objects) else None
    ensures LootIsBack(isPostgres, rows, objects, found, after, afterObjects)
  {
    hide HasBlob, LootBlob, RowReattached, HasContent, HasSome, Holds, BlobFor;
    forall k | 0 <= k < |rows|
      ensures forall bytes: Bytes :: bytes != [] && HasContent(rows[k], objects, bytes) ==>
                Holds(isPostgres, after[k], afterObjects, Some(bytes))
      ensures !HasSome(rows[k], objects) ==> after[k] == found[k]
    {
      assert Cell(rows[k], "id") == Cell(found[k], "id");
      LootRowIsBack(isPostgres, was, rows[k], objects, found[k], after[k], afterObjects, blobs);
    }
  }

  lemma BlobsOfRows(rows: seq<Row>, objects: map<nat, Bytes>)
    requires forall k :: 0 <= k < |rows| && HasBlob(rows[k], objects) ==> WellFiled(rows[k])
    requires IdsDiffer(rows)
    ensures forall k :: 0 <= k < |rows| ==>
      BlobFor(BlobsOf(rows, objects), Cell(rows[k], "id"))
      == if HasBlob(rows[k], objects) then LootBlob(rows[k], objects) else None
  {
    hide BlobsOf, HasBlob, LootBlob, WellFiled, IdsDiffer;
    forall k | 0 <= k < |rows|
      ensures BlobFor(BlobsOf(rows, objects), Cell(rows[k], "id"))
           == if HasBlob(rows[k], objects) then LootBlob(rows[k], objects) else None
    {
      BlobOfRow(rows, objects, k);
    }
  }

  /** Reattaching a loot-only archive, whatever has become of the contents since. */
  lemma LootComesBack(isPostgres: bool, codec: Codec, schema: Schema, db: Db, objects: map<nat, Bytes>, was: map<nat, Bytes>,
                      found: seq<Row>, after: seq<Row>, afterObjects: map<nat, Bytes>)
    requires AllWellFiled(db, objects) && IdsDiffer(Rows(db, LOOT_FILES))
    requires RowsAgree(LOOT_FILES, Rows(db, LOOT_FILES), found)
    requires BlobsReattached(isPostgres, was, found, after, afterObjects,
                             BlobsIn(ArchiveOf(LootOnly, codec, schema, db, objects)))
    ensures LootIsBack(isPostgres, Rows(db, LOOT_FILES), objects, found, after, afterObjects)
    ensures RowsAgree(LOOT_FILES, found, after)
  {
    var rows, blobs := Rows(db, LOOT_FILES), BlobsIn(ArchiveOf(LootOnly, codec, schema, db, objects));
    assert blobs == BlobsOf(rows, objects) by { LootOnlyExtracts(codec, schema, db, objects); }
    BlobsOfRows(rows, objects);
    assert RowsAgree(LOOT_FILES, found, after) && |after| == |found|;
    assert forall k :: 0 <= k < |found| ==> RowReattached(isPostgres, was, found[k], after[k], afterObjects, blobs);
    hide *;
    RowsComeBack(isPostgres, was, rows, objects, found, after, afterObjects, blobs);
  }

  lemma LootOnlyExtracts(codec: Codec, schema: Schema, db: Db, objects: map<nat, Bytes>)
    requires AllWellFiled(db, objects) && IdsDiffer(Rows(db, LOOT_FILES))
    ensures var zip := ArchiveOf(LootOnly, codec, schema, db, objects);
      && zip == LootEntries(Rows(db, LOOT_FILES), objects)
      && BlobsIn(zip) == BlobsOf(Rows(db, LOOT_FILES), objects)
  {
    hide WellFiled, IdsDiffer, BlobsOf, LootEntries, ExtractBlobs;
    ArchiveExtracts(LootOnly, codec, schema, db, objects);
    assert [] + LootEntries(Rows(db, LOOT_FILES), objects) == LootEntries(Rows(db, LOOT_FILES), objects);
  }

  lemma EntryNamesReadable(rows: seq<Row>, objects: map<nat, Bytes>)
    requires forall k :: 0 <= k < |rows| && HasBlob(rows[k], objects) ==> WellFiled(rows[k])
    ensures NamesReadable(LootEntries(rows, objects))
  {
    hide FilingOf, LootIdOf, LootName, LootBlob, LootEntries, HasBlob;
    var zip := LootEntries(rows, objects);
    forall i | 0 <= i < |zip|
      ensures !FilingOf(zip[i].name).Unreadable?
    {
      var k := EntryOfRow(rows, objects, i);
      assert WellFiled(rows[k]);
      FiledIsReadable(zip[i].name);
    }
  }

  lemma BlobIdsBind(isPostgres: bool, schema: Schema, db: Db, objects: map<nat, Bytes>)
    requires WellFormed(schema) && Sound(schema, db) && AllWellFiled(db, objects)
    ensures IdsBind(isPostgres, BlobsOf(Rows(db, LOOT_FILES), objects))
  {
    var rows := Rows(db, LOOT_FILES);
    BlobsFromRows(rows, objects);
    var blobs := BlobsOf(rows, objects);
    hide BlobsOf, Is64Bit, Sound, WellFormed, AllWellFiled, HasBlob, LootBlob;
    forall j | 0 <= j < |blobs|
      ensures Is64Bit(blobs[j].0)
    {
      assert blobs[j] in blobs;
      var k :| 0 <= k < |rows| && Cell(rows[k], "id") == Int(blobs[j].0) && HasBlob(rows[k], objects)
               && LootBlob(rows[k], objects) == Some(blobs[j].1);
      LootIdFits(schema, db, k);
    }
  }

  lemma SomeBlobs(rows: seq<Row>, objects: map<nat, Bytes>)
    requires forall k :: 0 <= k < |rows| && HasBlob(rows[k], objects) ==> WellFiled(rows[k])
    ensures BlobsOf(rows, objects) != [] <==> exists row <- rows :: HasSome(row, objects)
  {
    BlobsFromRows(rows, objects);
    var blobs := BlobsOf(rows, objects);
    hide BlobsOf, HasSome, HasBlob, LootBlob, WellFiled;
    if blobs != [] {
      assert blobs[0] in blobs;
      var k :| 0 <= k < |rows| && Cell(rows[k], "id") == Int(blobs[0].0) && HasBlob(rows[k], objects)
               && LootBlob(rows[k], objects) == Some(blobs[0].1);
      BlobIsContent(rows[k], objects);
      assert rows[k] in rows;
    }
    if row :| row in rows && HasSome(row, objects) {
      var k :| 0 <= k < |rows| && rows[k] == row;
      BlobIsContent(row, objects);
      BlobIsListed(rows, objects, k);
    }
  }

  /** Nothing about a loot-only archive of a well-filed store makes reattaching raise, if there is a blob at all. */
  lemma LootOnlyApplies(isPostgres: bool, codec: Codec, schema: Schema, db: Db, objects: map<nat, Bytes>)
    requires WellFormed(schema) && Sound(schema, db) && AllWellFiled(db, objects)
    ensures IdsDiffer(Rows(db, LOOT_FILES))
    ensures var zip := ArchiveOf(LootOnly, codec, schema, db, objects);
      && NamesReadable(zip) && IdsBind(isPostgres, BlobsIn(zip))
      && (BlobsIn(zip) != [] <==> exists row <- Rows(db, LOOT_FILES) :: HasSome(row, objects))
  {
    LootIdsDiffer(schema, db);
    LootOnlyExtracts(codec, schema, db, objects);
    EntryNamesReadable(Rows(db, LOOT_FILES), objects);
    BlobIdsBind(isPostgres, schema, db, objects);
    SomeBlobs(Rows(db, LOOT_FILES), objects);
    hide *;
  }

  /** The contents are lost: other values in the content columns, other Large Objects. */
  method LoseContents(session: Session, lost: Db, left: map<nat, Bytes>)
    requires session.conn.Valid() && forall oid :: oid in left ==> oid < session.conn.nextOid
    modifies session, session.conn
    ensures session.Clean() && session.conn.Valid()
    ensures session.tables == lost && session.conn.objects == left && session.failAfter == old(session.failAfter)
  {
    session.tables := lost;
    session.conn.objects := left;
    session.Commit();
  }

  /**
    Backs up the loot files, loses their contents, and reattaches the archive:
    every loot file has its bytes back, in the column and the kind of object
    of its dialect, and nothing else has changed.
   */
  method BackUpLoseAndReattach(session: Session, codec: Codec, lost: Db, left: map<nat, Bytes>)
    returns (r: Result<(nat, nat), RestoreError>)
    requires session.Clean() && session.conn.Valid() && session.failAfter == None
    requires WellFormed(session.schema) && Sound(session.schema, session.tables) && LOOT_FILES in session.tables
    requires AllWellFiled(session.tables, session.conn.objects)
    requires !exists row <- Rows(session.tables, LOOT_FILES) :: Dangles(row, session.conn.objects)
    requires Legal(session.schema, lost) && LOOT_FILES in lost
    requires RowsAgree(LOOT_FILES, session.tables[LOOT_FILES], lost[LOOT_FILES])
    requires forall oid :: oid in left ==> oid < session.conn.nextOid
    modifies session, session.conn
    ensures r.Ok? <==> exists row <- old(session.tables)[LOOT_FILES] :: HasSome(row, old(session.conn.objects))
    ensures r.Ok? ==>
      && LOOT_FILES in session.tables && session.tables == lost[LOOT_FILES := session.tables[LOOT_FILES]]
      && RowsAgree(LOOT_FILES, lost[LOOT_FILES], session.tables[LOOT_FILES])
      && LootIsBack(session.isPostgres, old(session.tables)[LOOT_FILES], old(session.conn.objects), lost[LOOT_FILES],
                    session.tables[LOOT_FILES], session.conn.objects)
  {
    ghost var db, objects := session.tables, session.conn.objects;
    LootOnlyApplies(session.isPostgres, codec, session.schema, db, objects);
    ReadableIff(LootOnly, db, objects);
    assert Rows(db, LOOT_FILES) == db[LOOT_FILES];
    hide *;
    var zip := BuildArchive(session, codec, LootOnly);
    LoseContents(session, lost, left);
    r := RestoreLootOnly(session, zip.value);
    if r.Ok? {
      LootComesBack(session.isPostgres, codec, session.schema, db, objects, left, lost[LOOT_FILES],
                    session.tables[LOOT_FILES], session.conn.objects);
    }
  }
}
