/** Building an archive: every table as JSON, every loot blob as an entry. */
module BackupService {
  import opened Wrappers
  import opened ByteStrings
  import opened LargeObjects
  import opened Database
  import opened Archive
  import opened EngagementArchive
  import opened RestoreRoundTrip
  import opened ArchiveContents
  import opened Sessions

  datatype BackupError = NoSuchObject

  method AddDatabase(session: Session, codec: Codec) returns (manifest: Manifest)
    ensures manifest == ExportOf(codec, session.schema, session.tables)
  {
    manifest := map[];
    var i := 0;
    while i < |session.schema|
      invariant i <= |session.schema|
      invariant manifest == ExportUpTo(codec, session.schema, i, session.tables)
    {
      var table := session.schema[i];
      manifest := manifest[table.name := SerializeRows(codec, Rows(session.tables, table.name))];
      i := i + 1;
    }
  }

  /** The raw bytes behind a row; an error when its Large Object is gone. */
  method ReadLootBlob(session: Session, row: Row) returns (r: Result<Option<Bytes>, BackupError>)
    ensures r == if BlobReadable(row, session.conn.objects) then Ok(LootBlob(row, session.conn.objects))
                 else Err(NoSuchObject)
  {
    match Cell(row, "content_oid") {
      case Int(n) =>
        if n < 0 || n !in session.conn.objects {
          return Err(NoSuchObject);
        }
        var raw := session.conn.ReadRaw(n);
        r := Ok(Some(raw));
      case _ =>
        match Cell(row, "encrypted_content") {
          case Binary(bytes) => r := Ok(Some(bytes));
          case _ => r := Ok(None);
        }
    }
  }

  ghost predicate AllReadable(rows: seq<Row>, objects: map<nat, Bytes>) {
    forall k :: 0 <= k < |rows| ==> BlobReadable(rows[k], objects)
  }

  /** Every loot file's blob, or those of one engagement; an error when a Large Object is gone. */
  method AddLootFiles(session: Session, engagementId: Option<int>) returns (r: Result<Zip, BackupError>)
    ensures var all := Rows(session.tables, LOOT_FILES);
      var rows := if engagementId.Some? then OfEngagement(all, engagementId.value) else all;
      r == if AllReadable(rows, session.conn.objects) then Ok(LootEntries(rows, session.conn.objects))
           else Err(NoSuchObject)
  {
    hide OfEngagement;
    var rows := Rows(session.tables, LOOT_FILES);
    if engagementId.Some? {
      rows := OfEngagement(rows, engagementId.value);
    }
    var entries: Zip := [];
    var i := 0;
    while i < |rows|
      invariant i <= |rows|
      invariant AllReadable(rows[..i], session.conn.objects)
      invariant entries == LootEntries(rows[..i], session.conn.objects)
    {
      var blob := ReadLootBlob(session, rows[i]);
      if blob.Err? {
        assert !BlobReadable(rows[i], session.conn.objects);
        return Err(NoSuchObject);
      }
      hide LootName, LootBlob, BlobReadable, LootEntries;
      assert rows[..i + 1] == rows[..i] + [rows[i]];
      LootEntriesSnoc(rows[..i], rows[i], session.conn.objects);
      OneEntry(rows[i], session.conn.objects);
      if blob.value.Some? && blob.value.value != [] {
        entries := entries + [Entry(LootName(rows[i]), Raw(blob.value.value))];
      }
      i := i + 1;
    }
    assert rows[..i] == rows;
    r := Ok(entries);
  }

  lemma OneEntry(row: Row, objects: map<nat, Bytes>)
    ensures LootEntries([row], objects)
         == if HasBlob(row, objects) then [Entry(LootName(row), Raw(LootBlob(row, objects).value))] else []
  {
    hide LootName, LootBlob;
    assert [row][1..] == [];
    assert LootEntries([row][1..], objects) == [];
  }

  /** One engagement as JSON, if it exists. */
  method AddEngagement(session: Session, codec: Codec, engagementId: Option<int>) returns (json: Zip)
    ensures json == JsonEntry(OneEngagement(engagementId), codec, session.schema, session.tables)
  {
    if engagementId == None {
      return [];
    }
    var row := EngagementRow(Rows(session.tables, ENGAGEMENTS), engagementId.value);
    if row == None {
      return [];
    }
    var lists := AddLists(session, codec, ENGAGEMENT_TABLES, engagementId.value);
    json := [Entry(ENGAGEMENT_MANIFEST, EngagementExport(SerializeRow(codec, row.value), lists))];
  }

  lemma {:induction false} ListsSnoc(codec: Codec, db: Db, names: seq<string>, name: string, id: int)
    ensures EngagementLists(codec, db, names + [name], id)
         == EngagementLists(codec, db, names, id)[name := EngagementList(codec, db, name, id)]
  {
    hide EngagementLists, EngagementList;
    var all := EngagementLists(codec, db, names + [name], id);
    var step := EngagementLists(codec, db, names, id)[name := EngagementList(codec, db, name, id)];
    assert forall n :: n in names + [name] <==> n in names || n == name;
    assert forall n :: n in all <==> n in step;
    assert forall n :: n in all ==> all[n] == step[n];
  }

  method AddLists(session: Session, codec: Codec, names: seq<string>, engagementId: int) returns (lists: Manifest)
    ensures lists == EngagementLists(codec, session.tables, names, engagementId)
  {
    hide EngagementList;
    lists := map[];
    var i := 0;
    while i < |names|
      invariant i <= |names|
      invariant lists == EngagementLists(codec, session.tables, names[..i], engagementId)
    {
      hide EngagementLists;
      assert names[..i + 1] == names[..i] + [names[i]];
      ListsSnoc(codec, session.tables, names[..i], names[i], engagementId);
      lists := lists[names[i] := EngagementList(codec, session.tables, names[i], engagementId)];
      i := i + 1;
    }
    assert names[..i] == names;
  }

  /** The archive of a scope, or an error when a blob it needs cannot be read. */
  method BuildArchive(session: Session, codec: Codec, scope: Scope) returns (r: Result<Zip, BackupError>)
    ensures r == if AllReadable(LootRows(scope, session.tables), session.conn.objects)
                 then Ok(ArchiveOf(scope, codec, session.schema, session.tables, session.conn.objects))
                 else Err(NoSuchObject)
    ensures r.Ok? ==> IsArchiveOf(scope, codec, session.schema, session.tables, session.conn.objects, r.value)
    ensures r.Err? <==> exists row <- Rows(session.tables, "loot_files") ::
      Concerns(scope, row) && Dangles(row, session.conn.objects)
  {
    ArchiveIs(scope, codec, session.schema, session.tables, session.conn.objects);
    ReadableIff(scope, session.tables, session.conn.objects);
    hide AllReadable, LootEntries, OfEngagement, IsArchiveOf, ExportOf, Concerns, Dangles;
    var zip: Zip := [];
    var loot: Result<Zip, BackupError> := Ok([]);
    match scope {
      case DatabaseOnly =>
        var manifest := AddDatabase(session, codec);
        zip := [Entry(EXPORT_NAME, Export(manifest))];
        NoLootNeeded(session.conn.objects);
      case FullVault =>
        var manifest := AddDatabase(session, codec);
        zip := [Entry(EXPORT_NAME, Export(manifest))];
        loot := AddLootFiles(session, None);
      case LootOnly =>
        loot := AddLootFiles(session, None);
      case OneEngagement(id) =>
        zip := AddEngagement(session, codec, id);
        loot := AddLootFiles(session, id);
    }
    r := if loot.Err? then Err(NoSuchObject) else Ok(zip + loot.value);
  }

  lemma ReadableIff(scope: Scope, db: Db, objects: map<nat, Bytes>)
    ensures AllReadable(LootRows(scope, db), objects) <==>
            !exists row <- Rows(db, LOOT_FILES) :: Concerns(scope, row) && Dangles(row, objects)
  {
    var kept, rows := LootRows(scope, db), Rows(db, LOOT_FILES);
    forall row
      ensures row in kept <==> row in rows && Concerns(scope, row)
    {
    }
    forall row
      ensures BlobReadable(row, objects) <==> !Dangles(row, objects)
    {
    }
    hide LootRows, Concerns, Dangles, BlobReadable;
    if !AllReadable(kept, objects) {
      var k :| 0 <= k < |kept| && !BlobReadable(kept[k], objects);
      assert kept[k] in kept;
    }
    if row :| row in rows && Concerns(scope, row) && Dangles(row, objects) {
      var k :| 0 <= k < |kept| && kept[k] == row;
    }
  }

  lemma NoLootNeeded(objects: map<nat, Bytes>)
    ensures AllReadable([], objects) && LootEntries([], objects) == []
  {
  }
}
