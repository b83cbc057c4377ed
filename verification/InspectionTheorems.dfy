/** What the confirmation screen says of an archive is what was backed up. */
module InspectionTheorems {
  import opened Wrappers
  import opened ByteStrings
  import opened Database
  import opened Archive
  import opened EngagementArchive
  import opened RestoreRoundTrip
  import opened ArchiveContents
  import opened RestoreService

  /** The JSON entry of an archive is the one read back under its name. */
  lemma FirstEntryIsRead(scope: Scope, codec: Codec, schema: Schema, db: Db, objects: map<nat, Bytes>)
    requires ExportsDatabase(scope) || ExportsEngagement(scope, db)
    ensures var zip := ArchiveOf(scope, codec, schema, db, objects);
      zip != [] && HasEntry(zip, zip[0].name) && ReadEntry(zip, zip[0].name) == zip[0].content
  {
    var zip := ArchiveOf(scope, codec, schema, db, objects);
    ArchiveIs(scope, codec, schema, db, objects);
    var loot := zip[1..];
    hide ArchiveOf, LootArchived, IsExportOf, IsEngagementExport;
    OnlyLootNames(loot, Rows(db, LOOT_FILES), objects, scope);
    forall j | 0 < j < |zip|
      ensures zip[j].name != zip[0].name
    {
      assert zip[j] == loot[j - 1];
    }
    ReadIsLast(zip, zip[0].name, 0);
  }

  /** Each table's count on the confirmation screen is the number of its rows when the backup was made. */
  lemma FullBackupInspected(scope: Scope, codec: Codec, schema: Schema, db: Db, objects: map<nat, Bytes>)
    requires ExportsDatabase(scope)
    ensures var zip := ArchiveOf(scope, codec, schema, db, objects);
      && HasEntry(zip, EXPORT_NAME)
      && var counts := TableCounts(ReadEntry(zip, EXPORT_NAME));
      && counts.Some? && counts.value.Keys == TableNames(schema)
      && forall name <- counts.value :: counts.value[name] == |Rows(db, name)|
  {
    ArchiveIs(scope, codec, schema, db, objects);
    FirstEntryIsRead(scope, codec, schema, db, objects);
    hide ArchiveOf, LootArchived, ReadEntry, HasEntry;
  }

  /** The engagement named on the screen is the one that was backed up. */
  lemma EngagementInspected(codec: Codec, schema: Schema, db: Db, objects: map<nat, Bytes>, id: int)
    requires exists row <- Rows(db, ENGAGEMENTS) :: Cell(row, "id") == Int(id)
    ensures var zip := ArchiveOf(OneEngagement(Some(id)), codec, schema, db, objects);
      && HasEntry(zip, ENGAGEMENT_MANIFEST) && !HasEntry(zip, EXPORT_NAME)
      && exists row <- Rows(db, ENGAGEMENTS) ::
           Cell(row, "id") == Int(id)
           && EngagementName(ReadEntry(zip, ENGAGEMENT_MANIFEST)) == Some(SerializeValue(codec, Cell(row, "name")))
  {
    var scope := OneEngagement(Some(id));
    ArchiveIs(scope, codec, schema, db, objects);
    FirstEntryIsRead(scope, codec, schema, db, objects);
    var zip := ArchiveOf(scope, codec, schema, db, objects);
    assert zip[0].name == ENGAGEMENT_MANIFEST && IsEngagementExport(codec, zip[0].content, db, id);
    assert HasEntry(zip, ENGAGEMENT_MANIFEST) && !HasEntry(zip, EXPORT_NAME);
    hide *;
    NameIsRead(codec, zip[0].content, db, id);
  }

  lemma NameIsRead(codec: Codec, content: Content, db: Db, id: int)
    requires IsEngagementExport(codec, content, db, id)
    ensures exists row <- Rows(db, ENGAGEMENTS) ::
      Cell(row, "id") == Int(id) && EngagementName(content) == Some(SerializeValue(codec, Cell(row, "name")))
  {
    hide IsOwnList, IsListed, SerializeValue;
    assert IsRowOf(codec, content.engagement, Rows(db, "engagements"), id);
    var row :| row in Rows(db, "engagements") && Cell(row, "id") == Int(id)
               && IsListOf(codec, [content.engagement], [row], {});
    NullSerialized(codec);
    assert [content.engagement][0].Keys == [row][0].Keys - {};
    assert "name" in row ==> [content.engagement][0]["name"] == SerializeValue(codec, row["name"]);
  }

  lemma NullSerialized(codec: Codec)
    ensures SerializeValue(codec, Null) == JNull
  {
  }
}
