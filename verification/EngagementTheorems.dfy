/** What the archive of one engagement holds, and that no full restore takes it. */
module EngagementTheorems {
  import opened Wrappers
  import opened ByteStrings
  import opened Database
  import opened Archive
  import opened EngagementArchive
  import opened RestorePlan
  import opened RestoreRoundTrip
  import opened RestoreTheorems

  lemma MetadataBlanks(codec: Codec, t: Table, row: Row)
    requires codec.Lawful() && RowTyped(t, row) && t.name == LOOT_FILES
    ensures var raw := SerializeRow(codec, row - CONTENT_COLUMNS); var read := DeserializeColumns(codec, t.columns, raw);
      read.Some? && Blank(t, read.value) == Blank(t, row)
  {
    var bare := row - CONTENT_COLUMNS;
    ColumnsRoundTrip(codec, t.columns, bare);
    ProjectCells(bare, t.columns);
    var back := Project(bare, t.columns);
    assert Blank(t, back).Keys == Blank(t, row).Keys;
    forall c | c in Blank(t, row)
      ensures Blank(t, back)[c] == Blank(t, row)[c]
    {
    }
  }

  lemma {:induction false} MetadataReads(codec: Codec, t: Table, rows: seq<Row>)
    requires codec.Lawful() && t.name == LOOT_FILES && forall k :: 0 <= k < |rows| ==> RowTyped(t, rows[k])
    ensures DeserializeRows(codec, t, SerializeRows(codec, Metadata(rows))) == Some(BlankRows(t, rows))
  {
    hide RowTyped, DeserializeColumns, Blank;
    if rows != [] {
      MetadataBlanks(codec, t, rows[0]);
      MetadataReads(codec, t, rows[1..]);
      var raws := SerializeRows(codec, Metadata(rows));
      assert Metadata(rows)[1..] == Metadata(rows[1..]);
      assert raws[0] == SerializeRow(codec, rows[0] - CONTENT_COLUMNS);
      assert raws[1..] == SerializeRows(codec, Metadata(rows[1..]));
    }
  }

  /** Each list of an engagement's archive reads back as exactly the engagement's rows, loot contents aside. */
  lemma ListsReadBack(codec: Codec, t: Table, db: Db, id: int)
    requires codec.Lawful() && t.name in ENGAGEMENT_TABLES
    requires forall k :: 0 <= k < |Rows(db, t.name)| ==> RowTyped(t, Rows(db, t.name)[k])
    ensures DeserializeRows(codec, t, RawRows(EngagementLists(codec, db, ENGAGEMENT_TABLES, id), t.name))
         == Some(BlankRows(t, OfEngagement(Rows(db, t.name), id)))
  {
    var rows := OfEngagement(Rows(db, t.name), id);
    forall k | 0 <= k < |rows|
      ensures RowTyped(t, rows[k])
    {
      assert rows[k] in Rows(db, t.name);
    }
    hide RowTyped, DeserializeRows, BlankRows;
    if t.name == LOOT_FILES {
      MetadataReads(codec, t, rows);
    } else {
      RowsRoundTrip(codec, t, rows);
    }
  }

  /** The archive of an existing engagement is no full backup: restoring it raises and changes nothing. */
  lemma EngagementIsNotRestored(isPostgres: bool, codec: Codec, schema: Schema, source: Db, objects: map<nat, Bytes>,
                                target: Db, oid: nat, id: int)
    requires EngagementRow(Rows(source, ENGAGEMENTS), id).Some?
    ensures var zip := ArchiveOf(OneEngagement(Some(id)), codec, schema, source, objects);
      && HasEntry(zip, ENGAGEMENT_MANIFEST)
      && RestoreOutcome(isPostgres, codec, schema, zip, target, oid) == None
  {
    var scope := OneEngagement(Some(id));
    assert JsonEntry(scope, codec, schema, source)[0].name == ENGAGEMENT_MANIFEST;
    hide JsonEntry, RestoreOutcome, LootRows;
    NoExport(JsonEntry(scope, codec, schema, source), LootRows(scope, source), objects);
    NothingToRestore(isPostgres, codec, schema, ArchiveOf(scope, codec, schema, source, objects), target, oid);
  }

  lemma NoExport(json: Zip, rows: seq<Row>, objects: map<nat, Bytes>)
    requires |json| == 1 && json[0].name == ENGAGEMENT_MANIFEST
    ensures HasEntry(json + LootEntries(rows, objects), ENGAGEMENT_MANIFEST)
    ensures !HasEntry(json + LootEntries(rows, objects), EXPORT_NAME)
  {
    var loot := LootEntries(rows, objects);
    var zip := json + loot;
    LootNamesAreNotTheExport(rows, objects);
    hide LootEntries;
    assert zip[0].name == ENGAGEMENT_MANIFEST && ENGAGEMENT_MANIFEST[0] != EXPORT_NAME[0];
    forall i | 0 <= i < |zip|
      ensures zip[i].name != EXPORT_NAME
    {
      assert i > 0 ==> zip[i] == loot[i - 1];
    }
  }

  lemma NothingToRestore(isPostgres: bool, codec: Codec, schema: Schema, zip: Zip, target: Db, oid: nat)
    requires !HasEntry(zip, EXPORT_NAME)
    ensures RestoreOutcome(isPostgres, codec, schema, zip, target, oid) == None
  {
  }
}
