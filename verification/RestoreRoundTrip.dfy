/**
  Backup and restore are inverse: the archive of a legal store, restored over
  any other legal store, gives back every row and every loot blob.
 */
module RestoreRoundTrip {
  import opened Wrappers
  import opened ByteStrings
  import opened Database
  import opened Archive
  import opened RestorePlan
  import opened RestoreSafety
  import opened RestoreContents
  import opened EngagementArchive

  // ---------------------------------------------------------------- the printer side

  /** The export of the first n tables. */
  function ExportUpTo(codec: Codec, schema: Schema, n: nat, db: Db): Manifest
    requires n <= |schema|
  {
    if n == 0 then map[]
    else ExportUpTo(codec, schema, n - 1, db)[schema[n - 1].name := SerializeRows(codec, Rows(db, schema[n - 1].name))]
  }

  function ExportOf(codec: Codec, schema: Schema, db: Db): Manifest {
    ExportUpTo(codec, schema, |schema|, db)
  }

  datatype Scope = FullVault | DatabaseOnly | LootOnly | OneEngagement(id: Option<int>)

  /** The loot files a scope archives; an engagement scope without an engagement means all of them. */
  function LootRows(scope: Scope, db: Db): seq<Row> {
    var rows := Rows(db, LOOT_FILES);
    match scope
    case DatabaseOnly => []
    case OneEngagement(Some(id)) => OfEngagement(rows, id)
    case _ => rows
  }

  /** The JSON entry of a scope, if it has one. */
  function JsonEntry(scope: Scope, codec: Codec, schema: Schema, db: Db): (zip: Zip)
    ensures |zip| <= 1
    ensures scope.FullVault? || scope.DatabaseOnly? ==> |zip| == 1 && zip[0].name == EXPORT_NAME
    ensures zip != [] ==> zip[0].name == EXPORT_NAME || zip[0].name == ENGAGEMENT_MANIFEST
  {
    match scope
    case LootOnly => []
    case OneEngagement(None) => []
    case OneEngagement(Some(id)) =>
      (match EngagementRow(Rows(db, ENGAGEMENTS), id)
       case None => []
       case Some(row) =>
         [Entry(ENGAGEMENT_MANIFEST,
                EngagementExport(SerializeRow(codec, row), EngagementLists(codec, db, ENGAGEMENT_TABLES, id)))])
    case _ => [Entry(EXPORT_NAME, Export(ExportOf(codec, schema, db)))]
  }

  /** `build_archive` */
  function ArchiveOf(scope: Scope, codec: Codec, schema: Schema, db: Db, objects: map<nat, Bytes>): Zip {
    JsonEntry(scope, codec, schema, db) + LootEntries(LootRows(scope, db), objects)
  }

  lemma {:induction false} ExportHolds(codec: Codec, schema: Schema, n: nat, db: Db, i: nat)
    requires i < n <= |schema|
    ensures RawRows(ExportUpTo(codec, schema, n, db), schema[i].name) == SerializeRows(codec, Rows(db, schema[i].name))
  {
    if i < n - 1 {
      ExportHolds(codec, schema, n - 1, db, i);
    }
  }

  // ---------------------------------------------------------------- rows

  function ColumnNames(columns: seq<Column>): set<string> {
    set i | 0 <= i < |columns| :: columns[i].name
  }

  ghost predicate RowTyped(t: Table, row: Row) {
    && row.Keys == ColumnNames(t.columns)
    && forall i :: 0 <= i < |t.columns| ==> Typed(Cell(row, t.columns[i].name), t.columns[i].colType)
  }

  ghost predicate StoreTyped(schema: Schema, db: Db) {
    && db.Keys == TableNames(schema)
    && forall i, k :: 0 <= i < |schema| && 0 <= k < |Rows(db, schema[i].name)| ==>
         RowTyped(schema[i], Rows(db, schema[i].name)[k])
  }

  function Project(row: Row, columns: seq<Column>): Row {
    if columns == [] then map[] else map[columns[0].name := Cell(row, columns[0].name)] + Project(row, columns[1..])
  }

  lemma ColumnNamesStep(columns: seq<Column>)
    requires columns != []
    ensures ColumnNames(columns) == {columns[0].name} + ColumnNames(columns[1..])
  {
    assert columns == [columns[0]] + columns[1..];
    forall i | 0 <= i < |columns[1..]|
      ensures columns[1..][i].name in ColumnNames(columns)
    {
      assert columns[i + 1].name in ColumnNames(columns);
    }
  }

  lemma {:induction false} ProjectCells(row: Row, columns: seq<Column>)
    ensures Project(row, columns).Keys == ColumnNames(columns)
    ensures forall c :: c in Project(row, columns) ==> Project(row, columns)[c] == Cell(row, c)
  {
    if columns != [] {
      ColumnNamesStep(columns);
      ProjectCells(row, columns[1..]);
    }
  }

  lemma NullReads(codec: Codec, colType: ColType)
    ensures DeserializeValue(codec, JNull, colType) == Some(Null)
  {
  }

  /** Every column is read back; one the row does not have reads as null. */
  lemma {:induction false} ColumnsRoundTrip(codec: Codec, columns: seq<Column>, row: Row)
    requires codec.Lawful()
    requires forall i :: 0 <= i < |columns| ==> Typed(Cell(row, columns[i].name), columns[i].colType)
    ensures DeserializeColumns(codec, columns, SerializeRow(codec, row)) == Some(Project(row, columns))
  {
    hide DeserializeValue, SerializeValue, Typed;
    if columns != [] {
      ValueRoundTrip(codec, Cell(row, columns[0].name), columns[0].colType);
      NullReads(codec, columns[0].colType);
      ColumnsRoundTrip(codec, columns[1..], row);
    }
  }

  function BlankRows(t: Table, rows: seq<Row>): (r: seq<Row>)
    ensures |r| == |rows|
    ensures forall k :: 0 <= k < |rows| ==> r[k] == Blank(t, rows[k])
  {
    if rows == [] then [] else [Blank(t, rows[0])] + BlankRows(t, rows[1..])
  }

  lemma {:induction false} RowsRoundTrip(codec: Codec, t: Table, rows: seq<Row>)
    requires codec.Lawful() && forall k :: 0 <= k < |rows| ==> RowTyped(t, rows[k])
    ensures DeserializeRows(codec, t, SerializeRows(codec, rows)) == Some(BlankRows(t, rows))
  {
    if rows != [] {
      ColumnsRoundTrip(codec, t.columns, rows[0]);
      ProjectCells(rows[0], t.columns);
      assert Project(rows[0], t.columns) == rows[0];
      assert SerializeRows(codec, rows)[1..] == SerializeRows(codec, rows[1..]);
      RowsRoundTrip(codec, t, rows[1..]);
    }
  }

  /** A table that is only its name, which is all that blanking looks at. */
  function LootTable(): Table {
    Table(LOOT_FILES, [], [], [], _ => true)
  }

  /** The store with its loot contents blanked: what the tables hold before blobs are attached. */
  function Blanked(db: Db): Db {
    if LOOT_FILES in db then db[LOOT_FILES := BlankRows(LootTable(), db[LOOT_FILES])] else db
  }

  lemma BlankedAgrees(schema: Schema, db: Db)
    ensures AgreeOffContents(schema, db, Blanked(db))
  {
    forall i | 0 <= i < |schema|
      ensures RowsAgree(schema[i].name, Rows(db, schema[i].name), Rows(Blanked(db), schema[i].name))
    {
      if schema[i].name == LOOT_FILES && LOOT_FILES in db {
        var rows := db[LOOT_FILES];
        forall k, c | 0 <= k < |rows|
          ensures Cell(rows[k], c) == Cell(Blank(LootTable(), rows[k]), c) || c in CONTENT_COLUMNS
        {
        }
      }
    }
  }

  lemma {:induction false} BlankRowsByName(t: Table, u: Table, rows: seq<Row>)
    requires t.name == u.name || (t.name != LOOT_FILES && u.name != LOOT_FILES)
    ensures BlankRows(t, rows) == BlankRows(u, rows)
  {
    if rows != [] {
      BlankRowsByName(t, u, rows[1..]);
    }
  }

  lemma {:induction false} BlankRowsElsewhere(t: Table, rows: seq<Row>)
    requires t.name != LOOT_FILES
    ensures BlankRows(t, rows) == rows
  {
    if rows != [] {
      BlankRowsElsewhere(t, rows[1..]);
    }
  }

  /** The export of a typed store reads back as that store, contents blanked. */
  lemma ExportReads(codec: Codec, schema: Schema, db: Db)
    requires codec.Lawful() && WellFormed(schema) && StoreTyped(schema, db)
    ensures Reads(codec, schema, ExportOf(codec, schema, db), Blanked(db))
  {
    forall i | 0 <= i < |schema|
      ensures DeserializeRows(codec, schema[i], RawRows(ExportOf(codec, schema, db), schema[i].name))
           == Some(Rows(Blanked(db), schema[i].name))
    {
      ExportHolds(codec, schema, |schema|, db, i);
      var t, rows := schema[i], Rows(db, schema[i].name);
      RowsRoundTrip(codec, t, rows);
      assert t.name in db.Keys;
      if t.name == LOOT_FILES {
        BlankRowsByName(t, LootTable(), rows);
      } else {
        BlankRowsElsewhere(t, rows);
      }
    }
  }

  // ---------------------------------------------------------------- blobs

  /** The row's archive entry is filed under the row's own id. */
  ghost predicate WellFiled(row: Row) {
    var id := LootIdOf(LootName(row));
    id.Some? && Cell(row, "id") == Int(id.value)
  }

  function BlobsOf(rows: seq<Row>, objects: map<nat, Bytes>): Blobs {
    if rows == [] then []
    else
      (if HasBlob(rows[0], objects) && LootIdOf(LootName(rows[0])).Some?
       then [(LootIdOf(LootName(rows[0])).value, LootBlob(rows[0], objects).value)] else [])
      + BlobsOf(rows[1..], objects)
  }

  lemma {:induction false} EntriesAligned(rows: seq<Row>, objects: map<nat, Bytes>)
    requires forall k :: 0 <= k < |rows| && HasBlob(rows[k], objects) ==> WellFiled(rows[k])
    ensures var entries, blobs := LootEntries(rows, objects), BlobsOf(rows, objects);
      && |entries| == |blobs|
      && forall j :: 0 <= j < |blobs| ==>
           LootIdOf(entries[j].name) == Some(blobs[j].0) && entries[j].content == Raw(blobs[j].1)
  {
    hide LootIdOf, LootName;
    if rows != [] {
      EntriesAligned(rows[1..], objects);
      if HasBlob(rows[0], objects) {
        assert WellFiled(rows[0]);
      }
    }
  }

  ghost predicate FromRow(rows: seq<Row>, objects: map<nat, Bytes>, blob: (nat, Bytes)) {
    exists k :: 0 <= k < |rows| && Cell(rows[k], "id") == Int(blob.0) && HasBlob(rows[k], objects)
                && LootBlob(rows[k], objects) == Some(blob.1)
  }

  ghost predicate IdsDiffer(rows: seq<Row>) {
    forall p, q :: 0 <= p < q < |rows| ==> Cell(rows[p], "id") != Cell(rows[q], "id")
  }

  lemma {:induction false} BlobsFromRows(rows: seq<Row>, objects: map<nat, Bytes>)
    requires forall k :: 0 <= k < |rows| && HasBlob(rows[k], objects) ==> WellFiled(rows[k])
    ensures forall b :: b in BlobsOf(rows, objects) ==> FromRow(rows, objects, b)
  {
    hide LootIdOf, LootName;
    if rows != [] {
      BlobsFromRows(rows[1..], objects);
      forall b | b in BlobsOf(rows, objects)
        ensures FromRow(rows, objects, b)
      {
        if b in BlobsOf(rows[1..], objects) {
          var k :| 0 <= k < |rows[1..]| && Cell(rows[1..][k], "id") == Int(b.0) && HasBlob(rows[1..][k], objects)
                   && LootBlob(rows[1..][k], objects) == Some(b.1);
          assert rows[k + 1] == rows[1..][k];
        } else {
          assert WellFiled(rows[0]);
        }
      }
    }
  }

  lemma {:induction false} BlobsDistinct(rows: seq<Row>, objects: map<nat, Bytes>)
    requires forall k :: 0 <= k < |rows| && HasBlob(rows[k], objects) ==> WellFiled(rows[k])
    requires IdsDiffer(rows)
    ensures DistinctIds(BlobsOf(rows, objects))
  {
    hide LootIdOf, LootName;
    if rows != [] {
      var rest := BlobsOf(rows[1..], objects);
      BlobsDistinct(rows[1..], objects);
      BlobsFromRows(rows[1..], objects);
      forall j | 0 <= j < |rest|
        ensures Int(rest[j].0) != Cell(rows[0], "id")
      {
        assert rest[j] in rest;
        var k :| 0 <= k < |rows[1..]| && Cell(rows[1..][k], "id") == Int(rest[j].0);
        assert rows[k + 1] == rows[1..][k];
      }
    }
  }

  /** With distinct ids, a row's blob is found under its id exactly when the row has one. */
  lemma {:induction false} BlobOfRow(rows: seq<Row>, objects: map<nat, Bytes>, k: nat)
    requires forall i :: 0 <= i < |rows| && HasBlob(rows[i], objects) ==> WellFiled(rows[i])
    requires IdsDiffer(rows) && k < |rows|
    ensures var blobs := BlobsOf(rows, objects); var at := BlobAt(blobs, Cell(rows[k], "id"));
      if HasBlob(rows[k], objects) then at.Some? && Some(blobs[at.value].1) == LootBlob(rows[k], objects)
      else at == None
  {
    hide LootIdOf, LootName;
    var blobs := BlobsOf(rows, objects);
    var at := BlobAt(blobs, Cell(rows[k], "id"));
    BlobsFromRows(rows, objects);
    if at.Some? {
      assert blobs[at.value] in blobs;
      var m :| 0 <= m < |rows| && Cell(rows[m], "id") == Int(blobs[at.value].0) && HasBlob(rows[m], objects)
               && LootBlob(rows[m], objects) == Some(blobs[at.value].1);
      assert m == k;
    } else if HasBlob(rows[k], objects) {
      BlobIsListed(rows, objects, k);
    }
  }

  lemma {:induction false} BlobIsListed(rows: seq<Row>, objects: map<nat, Bytes>, k: nat)
    requires k < |rows| && HasBlob(rows[k], objects) && WellFiled(rows[k])
    ensures BlobAt(BlobsOf(rows, objects), Cell(rows[k], "id")).Some?
  {
    hide LootIdOf, LootName;
    var blobs := BlobsOf(rows, objects);
    if k == 0 {
      assert Int(blobs[0].0) == Cell(rows[0], "id");
    } else {
      BlobIsListed(rows[1..], objects, k - 1);
      var rest := BlobsOf(rows[1..], objects);
      var j := BlobAt(rest, Cell(rows[k], "id")).value;
      assert blobs[|blobs| - |rest| + j] == rest[j];
    }
  }

  /** An archive whose loot entries are filed under distinct ids extracts to exactly those blobs. */
  lemma {:induction false} ExtractEntries(zip: Zip, pre: nat, blobs: Blobs, n: nat)
    requires |zip| == pre + |blobs| && n <= |blobs| && DistinctIds(blobs)
    requires forall i :: 0 <= i < pre ==> LootIdOf(zip[i].name) == None
    requires forall j {:trigger blobs[j]} :: 0 <= j < |blobs| ==>
      LootIdOf(zip[pre + j].name) == Some(blobs[j].0) && zip[pre + j].content == Raw(blobs[j].1)
    ensures ExtractBlobs(zip, pre + n) == blobs[..n]
  {
    hide LootIdOf;
    if n == 0 {
      NothingToExtract(zip, pre);
    } else {
      ExtractEntries(zip, pre, blobs, n - 1);
      var i := pre + (n - 1);
      assert blobs[n - 1] == blobs[n - 1];
      forall j | i < j < |zip|
        ensures zip[j].name != zip[i].name
      {
        assert blobs[j - pre].0 != blobs[n - 1].0;
      }
      ReadIsLast(zip, zip[i].name, i);
      PutDistinct(blobs[..n - 1], blobs[n - 1].0, blobs[n - 1].1);
      assert blobs[..n] == blobs[..n - 1] + [blobs[n - 1]];
    }
  }

  lemma {:induction false} NothingToExtract(zip: Zip, n: nat)
    requires n <= |zip| && forall i :: 0 <= i < n ==> LootIdOf(zip[i].name) == None
    ensures ExtractBlobs(zip, n) == []
  {
    if n > 0 {
      NothingToExtract(zip, n - 1);
    }
  }

  lemma ExportIsNoLootEntry()
    ensures LootIdOf(EXPORT_NAME) == None && LootIdOf(ENGAGEMENT_MANIFEST) == None
  {
    assert EXPORT_NAME[0] != LOOT_PREFIX[0] && ENGAGEMENT_MANIFEST[0] != LOOT_PREFIX[0];
  }

  lemma LootRowsAreRows(scope: Scope, db: Db)
    ensures forall row :: row in LootRows(scope, db) ==> row in Rows(db, LOOT_FILES)
    ensures IdsDiffer(Rows(db, LOOT_FILES)) ==> IdsDiffer(LootRows(scope, db))
  {
    if scope.OneEngagement? && scope.id.Some? {
      OfEngagementIds(Rows(db, LOOT_FILES), scope.id.value);
    }
  }

  lemma {:induction false} OfEngagementIds(rows: seq<Row>, id: int)
    ensures IdsDiffer(rows) ==> IdsDiffer(OfEngagement(rows, id))
  {
    if rows != [] {
      OfEngagementIds(rows[1..], id);
      var rest := OfEngagement(rows[1..], id);
      if IdsDiffer(rows) {
        forall q | 0 <= q < |rest|
          ensures Cell(rest[q], "id") != Cell(rows[0], "id")
        {
          assert rest[q] in rest;
          var k :| 0 <= k < |rows[1..]| && rows[1..][k] == rest[q];
          assert rows[k + 1] == rest[q];
        }
      }
    }
  }

  /** What is extracted from an archive is what was put into it: the blobs of its loot files, and no others. */
  lemma ArchiveExtracts(scope: Scope, codec: Codec, schema: Schema, db: Db, objects: map<nat, Bytes>)
    requires var rows := Rows(db, LOOT_FILES);
      && IdsDiffer(rows)
      && forall k :: 0 <= k < |rows| && HasBlob(rows[k], objects) ==> WellFiled(rows[k])
    ensures var zip := ArchiveOf(scope, codec, schema, db, objects);
      ExtractBlobs(zip, |zip|) == BlobsOf(LootRows(scope, db), objects)
  {
    var rows := LootRows(scope, db);
    LootRowsAreRows(scope, db);
    forall k | 0 <= k < |rows| && HasBlob(rows[k], objects)
      ensures WellFiled(rows[k])
    {
      assert rows[k] in Rows(db, LOOT_FILES);
    }
    ExportIsNoLootEntry();
    hide LootRows, JsonEntry, LootIdOf, LootName, HasBlob, IdsDiffer;
    EntriesExtract(JsonEntry(scope, codec, schema, db), rows, objects);
  }

  lemma EntriesExtract(json: Zip, rows: seq<Row>, objects: map<nat, Bytes>)
    requires IdsDiffer(rows) && forall k :: 0 <= k < |rows| && HasBlob(rows[k], objects) ==> WellFiled(rows[k])
    requires forall i :: 0 <= i < |json| ==> LootIdOf(json[i].name) == None
    ensures var zip := json + LootEntries(rows, objects);
      ExtractBlobs(zip, |zip|) == BlobsOf(rows, objects)
  {
    hide LootIdOf, LootName, LootBlob, BlobsOf, LootEntries, ExtractBlobs, HasBlob, WellFiled, IdsDiffer;
    var blobs, entries := BlobsOf(rows, objects), LootEntries(rows, objects);
    var zip, pre := json + entries, |json|;
    EntriesAligned(rows, objects);
    BlobsDistinct(rows, objects);
    forall j {:trigger blobs[j]} | 0 <= j < |blobs|
      ensures LootIdOf(zip[pre + j].name) == Some(blobs[j].0) && zip[pre + j].content == Raw(blobs[j].1)
    {
      assert zip[pre + j] == entries[j];
    }
    ExtractEntries(zip, pre, blobs, |blobs|);
    assert blobs[..|blobs|] == blobs;
  }
}
