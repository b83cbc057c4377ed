/** What a restore guarantees, stated over whole archives. */
module RestoreTheorems {
  import opened Wrappers
  import opened ByteStrings
  import opened Text
  import opened Numerals
  import opened Database
  import opened Archive
  import opened RestorePlan
  import opened RestoreSafety
  import opened RestoreContents
  import opened RestoreRoundTrip

  /** The export an archive holds, if it holds one. */
  function ManifestIn(zip: Zip): Option<Manifest> {
    if !HasEntry(zip, EXPORT_NAME) then None
    else JsonTables(ReadEntry(zip, EXPORT_NAME))
  }

  /** The tables after a full restore; None when it raises, which leaves them as they were. */
  function RestoreOutcome(isPostgres: bool, codec: Codec, schema: Schema, zip: Zip, db: Db, oid: nat): Option<Db> {
    match ManifestIn(zip)
    case None => None
    case Some(manifest) =>
      if !LootApplies(isPostgres, schema, zip) || (isPostgres && !SequencesFit(codec, schema, manifest)) then None
      else
        match Plan(isPostgres, codec, schema, manifest, BlobsIn(zip), oid)
        case None => None
        case Some(stmts) => RunAll(schema, db, stmts)
  }

  /** Ids are numbers from 1 on, as sequences and row ids make them. */
  ghost predicate IdsPositive(schema: Schema, db: Db) {
    forall i, k :: 0 <= i < |schema| && HasColumn(schema[i], "id") && 0 <= k < |Rows(db, schema[i].name)| ==>
      var id := Cell(Rows(db, schema[i].name)[k], "id");
      id.Int? && id.n >= 1
  }

  /** A store the application can hold: typed, every constraint satisfied, ids present. */
  ghost predicate Sound(schema: Schema, db: Db) {
    StoreTyped(schema, db) && Legal(schema, db) && IdsPositive(schema, db)
  }

  /** The largest id of every table of a store is one `setval` takes. */
  ghost predicate LastIdsFit(schema: Schema, db: Db) {
    forall i :: 0 <= i < |schema| && HasColumn(schema[i], "id") ==>
      var m := MaxId(Rows(db, schema[i].name));
      m.Some? ==> m.value >= 1
  }

  lemma {:induction false} MaxIdByIds(a: seq<Row>, b: seq<Row>)
    requires |a| == |b| && forall k :: 0 <= k < |a| ==> Cell(a[k], "id") == Cell(b[k], "id")
    ensures MaxId(a) == MaxId(b)
  {
    if a != [] {
      MaxIdByIds(a[1..], b[1..]);
    }
  }

  /** Nulling self-references leaves the ids. */
  lemma LastIdOfRows(schema: Schema, i: nat, rows: seq<Row>)
    requires WellFormed(schema) && i < |schema| && HasColumn(schema[i], "id")
    ensures LastId(schema[i], rows) == MaxId(rows)
  {
    SelfRefsNotId(schema, i);
    forall k | 0 <= k < |rows|
      ensures Cell(ClearedAll(schema[i], rows)[k], "id") == Cell(rows[k], "id")
    {
      ClearedCells(rows[k], SelfRefs(schema[i]));
    }
    MaxIdByIds(ClearedAll(schema[i], rows), rows);
  }

  lemma SequencesFitRows(codec: Codec, schema: Schema, manifest: Manifest, full: Db)
    requires WellFormed(schema) && Reads(codec, schema, manifest, full)
    ensures SequencesFit(codec, schema, manifest) <==> LastIdsFit(schema, full)
  {
    hide WellFormed, DeserializeRows;
    forall i | 0 <= i < |schema| && HasColumn(schema[i], "id")
      ensures LastId(schema[i], Rows(full, schema[i].name)) == MaxId(Rows(full, schema[i].name))
    {
      LastIdOfRows(schema, i, Rows(full, schema[i].name));
    }
    forall i | 0 <= i < |schema|
      ensures TableSequenceFits(codec, schema[i], RawRows(manifest, schema[i].name))
         <==> SequenceFits(schema[i], Rows(full, schema[i].name))
    {
    }
  }

  lemma {:induction false} SequencesAfterHolds(codec: Codec, schema: Schema, n: nat, manifest: Manifest, full: Db,
                                               start: map<string, int>, i: nat)
    requires WellFormed(schema) && Reads(codec, schema, manifest, full) && i < n <= |schema|
    requires HasColumn(schema[i], "id") && MaxId(Rows(full, schema[i].name)).Some?
    ensures var name := schema[i].name; var after := SequencesAfter(codec, schema, n, manifest, start);
      name in after && Some(after[name]) == MaxId(Rows(full, name))
  {
    hide DeserializeRows, LastId, MaxId;
    if i < n - 1 {
      SequencesAfterHolds(codec, schema, n - 1, manifest, full, start, i);
      assert schema[n - 1].name != schema[i].name;
    } else {
      LastIdOfRows(schema, i, Rows(full, schema[i].name));
    }
  }

  /** After a restore on Postgres no table's next id is one that its rows already have. */
  lemma NextIdsAreFree(codec: Codec, schema: Schema, manifest: Manifest, full: Db, start: map<string, int>, i: nat, k: nat)
    requires WellFormed(schema) && Reads(codec, schema, manifest, full) && i < |schema|
    requires k < |Rows(full, schema[i].name)| && HasColumn(schema[i], "id")
    requires Cell(Rows(full, schema[i].name)[k], "id").Int?
    ensures var after := SequencesAfter(codec, schema, |schema|, manifest, start);
      && schema[i].name in after
      && Cell(Rows(full, schema[i].name)[k], "id").n < after[schema[i].name] + 1
  {
    hide WellFormed, Reads, SequencesAfter;
    assert MaxId(Rows(full, schema[i].name)).Some?;
    SequencesAfterHolds(codec, schema, |schema|, manifest, full, start, i);
  }

  lemma PositiveIdsFit(schema: Schema, db: Db)
    requires IdsPositive(schema, db)
    ensures LastIdsFit(schema, db) && IdsPresent(schema, db)
  {
  }

  // ---------------------------------------------------------------- the result of a restore

  /** Attaching changes nothing that a constraint looks at. */
  lemma AttachedAgrees(schema: Schema, isPostgres: bool, db: Db, blobs: Blobs, oid: nat)
    requires DistinctIds(blobs)
    ensures AgreeOffContents(schema, db, Attached(isPostgres, db, blobs, oid))
  {
    forall i | 0 <= i < |schema|
      ensures RowsAgree(schema[i].name, Rows(db, schema[i].name), Rows(Attached(isPostgres, db, blobs, oid), schema[i].name))
    {
      if schema[i].name == LOOT_FILES && LOOT_FILES in db {
        AttachRowsPointwise(isPostgres, db[LOOT_FILES], blobs, oid);
      }
    }
  }

  /** The plan after wipe and load, from a store that is already legal. */
  lemma AttachPhaseRuns(schema: Schema, isPostgres: bool, db: Db, blobs: Blobs, oid: nat)
    requires WellFormed(schema) && Legal(schema, db) && db.Keys == TableNames(schema)
    ensures var attach := if HasTable(schema, LOOT_FILES) then AttachStatements(isPostgres, blobs, oid) else [];
      RunAll(schema, db, attach) == Some(Attached(isPostgres, db, blobs, oid))
  {
    if HasTable(schema, LOOT_FILES) {
      var i :| 0 <= i < |schema| && schema[i].name == LOOT_FILES;
      assert schema[i].name in TableNames(schema);
      AttachRuns(schema, isPostgres, db, blobs, oid);
    } else {
      assert LOOT_FILES !in TableNames(schema);
    }
  }

  /** The statements of a full restore run through over any legal store when the archived tables are legal. */
  lemma PlanRuns(isPostgres: bool, codec: Codec, schema: Schema, manifest: Manifest, blobs: Blobs, full: Db, db: Db,
                 oid: nat)
    requires WellFormed(schema) && Reads(codec, schema, manifest, full)
    requires Legal(schema, full) && IdsPresent(schema, full)
    requires Legal(schema, db) && db.Keys == TableNames(schema) == full.Keys
    ensures var plan := Plan(isPostgres, codec, schema, manifest, blobs, oid);
      plan.Some? && RunAll(schema, db, plan.value) == Some(Attached(isPostgres, full, blobs, oid))
  {
    hide WellFormed, Legal, Reads, IdsPresent, TableNames, RunAll, LoadStatements, WipeStatements, AttachStatements,
         Attached, HasTable;
    WipeAndLoadRun(isPostgres, codec, schema, manifest, full, db);
    AttachPhaseRuns(schema, isPostgres, full, blobs, oid);
    var attach := if HasTable(schema, LOOT_FILES) then AttachStatements(isPostgres, blobs, oid) else [];
    RunAllConcat(schema, db, WipeStatements(isPostgres, schema) + LoadStatements(codec, schema, manifest).value, attach);
  }

  lemma FullRestoreResult(isPostgres: bool, codec: Codec, schema: Schema, zip: Zip, manifest: Manifest, full: Db,
                          db: Db, oid: nat)
    requires WellFormed(schema) && ManifestIn(zip) == Some(manifest) && Reads(codec, schema, manifest, full)
    requires Legal(schema, full) && IdsPresent(schema, full)
    requires Legal(schema, db) && db.Keys == TableNames(schema) == full.Keys
    ensures RestoreOutcome(isPostgres, codec, schema, zip, db, oid)
         == if LootApplies(isPostgres, schema, zip) && (isPostgres ==> LastIdsFit(schema, full))
            then Some(Attached(isPostgres, full, BlobsIn(zip), oid)) else None
  {
    SequencesFitRows(codec, schema, manifest, full);
    PlanRuns(isPostgres, codec, schema, manifest, BlobsIn(zip), full, db, oid);
    hide WellFormed, Legal, Reads, IdsPresent, ManifestIn, BlobsIn, TableNames, RunAll, Plan, Attached, LootApplies,
         SequencesFit, LastIdsFit;
  }

  lemma RunEndsLegal(schema: Schema, db: Db, stmts: seq<Stmt>)
    requires Legal(schema, db) && RunAll(schema, db, stmts).Some?
    ensures Legal(schema, RunAll(schema, db, stmts).value)
  {
    if stmts != [] {
      EveryStatementLegal(schema, db, stmts, |stmts|);
      assert stmts[..|stmts|] == stmts;
    }
  }

  /**
    For every readable export and every legal store: the restore commits
    exactly when the archived tables satisfy every constraint, every loot
    entry's name and id can be used, and, on Postgres, no table's largest id is
    below 1.  What it commits is the archived tables with the blobs attached.
   */
  lemma CommitsIffArchiveLegal(isPostgres: bool, codec: Codec, schema: Schema, zip: Zip, manifest: Manifest, full: Db,
                               db: Db, oid: nat)
    requires WellFormed(schema) && IdsRequired(schema)
    requires ManifestIn(zip) == Some(manifest) && Reads(codec, schema, manifest, full)
    requires Legal(schema, db) && db.Keys == TableNames(schema) == full.Keys
    ensures var after := RestoreOutcome(isPostgres, codec, schema, zip, db, oid);
      && (after.Some? <==>
            Legal(schema, full) && LootApplies(isPostgres, schema, zip) && (isPostgres ==> LastIdsFit(schema, full)))
      && (after.Some? ==> after == Some(Attached(isPostgres, full, BlobsIn(zip), oid)))
  {
    if Legal(schema, full) {
      RequiredArePresent(schema, full);
      hide *;
      FullRestoreResult(isPostgres, codec, schema, zip, manifest, full, db, oid);
    } else if RestoreOutcome(isPostgres, codec, schema, zip, db, oid).Some? {
      hide *;
      CommittedLoads(isPostgres, codec, schema, zip, manifest, full, db, oid);
      WipeAndLoadResult(isPostgres, codec, schema, manifest, full, db);
      assert false;
    }
  }

  /** Once an archive is read, its loot rows hold no contents. */
  lemma {:induction false} ReadBlank(codec: Codec, t: Table, raws: seq<JsonRow>)
    requires DeserializeRows(codec, t, raws).Some? && t.name == LOOT_FILES
    ensures forall row <- DeserializeRows(codec, t, raws).value ::
      Cell(row, "content_oid") == Null && Cell(row, "encrypted_content") == Null
  {
    hide DeserializeColumns;
    if raws != [] {
      ReadBlank(codec, t, raws[1..]);
    }
  }

  /** The tables an archive's rows are read as. */
  ghost function ReadTables(codec: Codec, schema: Schema, manifest: Manifest): Db {
    map name | name in TableNames(schema) :: ReadRows(codec, schema, manifest, name)
  }

  function ReadRows(codec: Codec, schema: Schema, manifest: Manifest, name: string): seq<Row> {
    if schema == [] then []
    else if schema[0].name == name then DeserializeRows(codec, schema[0], RawRows(manifest, name)).GetOr([])
    else ReadRows(codec, schema[1..], manifest, name)
  }

  lemma {:induction false} ReadRowsAre(codec: Codec, schema: Schema, manifest: Manifest, i: nat)
    requires LoadStatements(codec, schema, manifest).Some? && i < |schema|
    requires forall j, k :: 0 <= j < k < |schema| ==> schema[j].name != schema[k].name
    ensures DeserializeRows(codec, schema[i], RawRows(manifest, schema[i].name))
         == Some(ReadRows(codec, schema, manifest, schema[i].name))
  {
    hide DeserializeRows, InsertAndPatch;
    if i > 0 {
      ReadRowsAre(codec, schema[1..], manifest, i - 1);
    }
  }

  /**
    After any restore that commits, whatever the archive: every loot row holds
    the blob filed under its id, on Postgres as the oid of an object of its
    own, on SQLite inline, and a row without one holds nothing.
   */
  lemma RestoredContents(isPostgres: bool, codec: Codec, schema: Schema, zip: Zip, db: Db, objects: map<nat, Bytes>, oid: nat)
    requires WellFormed(schema) && IdsRequired(schema)
    requires Legal(schema, db) && db.Keys == TableNames(schema)
    requires RestoreOutcome(isPostgres, codec, schema, zip, db, oid).Some?
    ensures ContentsPlaced(isPostgres, Rows(RestoreOutcome(isPostgres, codec, schema, zip, db, oid).value, LOOT_FILES),
                           ObjectsWith(objects, BlobsIn(zip), oid), BlobsIn(zip))
  {
    var after := RestoreOutcome(isPostgres, codec, schema, zip, db, oid).value;
    var manifest := ManifestIn(zip).value;
    var full := ReadTables(codec, schema, manifest);
    OutcomeReads(isPostgres, codec, schema, zip, db, oid);
    CommitsIffArchiveLegal(isPostgres, codec, schema, zip, manifest, full, db, oid);
    ExtractedFromEntries(zip, |zip|);
    RowsRead(codec, schema, manifest, full);
    hide *;
    PlacedInTable(isPostgres, full, BlobsIn(zip), objects, oid);
  }

  lemma OutcomeReads(isPostgres: bool, codec: Codec, schema: Schema, zip: Zip, db: Db, oid: nat)
    requires WellFormed(schema) && RestoreOutcome(isPostgres, codec, schema, zip, db, oid).Some?
    ensures ManifestIn(zip).Some?
    ensures var full := ReadTables(codec, schema, ManifestIn(zip).value);
      Reads(codec, schema, ManifestIn(zip).value, full) && full.Keys == TableNames(schema)
  {
    hide RunAll, LoadStatements, DeserializeRows, ReadRows, ManifestIn, LootApplies, SequencesFit, BlobsIn;
    var manifest := ManifestIn(zip).value;
    assert LoadStatements(codec, schema, manifest).Some?;
    forall i | 0 <= i < |schema|
      ensures DeserializeRows(codec, schema[i], RawRows(manifest, schema[i].name))
           == Some(Rows(ReadTables(codec, schema, manifest), schema[i].name))
    {
      ReadRowsAre(codec, schema, manifest, i);
      assert schema[i].name in TableNames(schema);
    }
  }

  lemma RowsRead(codec: Codec, schema: Schema, manifest: Manifest, full: Db)
    requires WellFormed(schema) && Reads(codec, schema, manifest, full) && Legal(schema, full)
    requires full.Keys == TableNames(schema)
    ensures IdsDiffer(Rows(full, LOOT_FILES))
    ensures forall row <- Rows(full, LOOT_FILES) ::
      Cell(row, "content_oid") == Null && Cell(row, "encrypted_content") == Null
  {
    if LOOT_FILES in full {
      var i :| 0 <= i < |schema| && schema[i].name == LOOT_FILES;
      assert TableWellFormed(schema, i) && TableLegal(full, schema[i]);
      ReadBlank(codec, schema[i], RawRows(manifest, LOOT_FILES));
    }
  }

  lemma PlacedInTable(isPostgres: bool, full: Db, blobs: Blobs, objects: map<nat, Bytes>, oid: nat)
    requires IdsDiffer(Rows(full, LOOT_FILES)) && DistinctIds(blobs)
    requires forall row <- Rows(full, LOOT_FILES) ::
      Cell(row, "content_oid") == Null && Cell(row, "encrypted_content") == Null
    ensures ContentsPlaced(isPostgres, Rows(Attached(isPostgres, full, blobs, oid), LOOT_FILES),
                           ObjectsWith(objects, blobs, oid), blobs)
  {
    hide ContentsPlaced;
    if LOOT_FILES in full {
      AttachedContents(isPostgres, full[LOOT_FILES], blobs, objects, oid);
    } else {
      NothingPlaced(isPostgres, objects, blobs, oid);
    }
  }

  /** A restore that commits has run its wipe and load, which ended in a legal store. */
  lemma CommittedLoads(isPostgres: bool, codec: Codec, schema: Schema, zip: Zip, manifest: Manifest, full: Db,
                       db: Db, oid: nat)
    requires ManifestIn(zip) == Some(manifest) && Reads(codec, schema, manifest, full) && Legal(schema, db)
    requires RestoreOutcome(isPostgres, codec, schema, zip, db, oid).Some?
    ensures var load := LoadStatements(codec, schema, manifest);
      && load.Some?
      && var mid := RunAll(schema, db, WipeStatements(isPostgres, schema) + load.value);
      && mid.Some? && Legal(schema, mid.value)
  {
    hide Legal, Reads, ManifestIn, BlobsIn, RunAll, LoadStatements, WipeStatements, AttachStatements, HasTable,
         LootApplies, SequencesFit;
    ReadsLoads(codec, schema, manifest, full);
    var load := WipeStatements(isPostgres, schema) + LoadStatements(codec, schema, manifest).value;
    var attach := if HasTable(schema, LOOT_FILES) then AttachStatements(isPostgres, BlobsIn(zip), oid) else [];
    assert RestoreOutcome(isPostgres, codec, schema, zip, db, oid) == RunAll(schema, db, load + attach);
    RunAllConcat(schema, db, load, attach);
    RunEndsLegal(schema, db, load);
  }

  lemma RequiredArePresent(schema: Schema, db: Db)
    requires IdsRequired(schema) && Legal(schema, db)
    ensures IdsPresent(schema, db)
  {
    forall i, k | 0 <= i < |schema| && HasColumn(schema[i], "id") && 0 <= k < |Rows(db, schema[i].name)|
      ensures Cell(Rows(db, schema[i].name)[k], "id") != Null
    {
      assert TableLegal(db, schema[i]);
      var c :| 0 <= c < |schema[i].columns| && schema[i].columns[c].name == "id" && !schema[i].columns[c].nullable;
      assert Cell(Rows(db, schema[i].name)[k], schema[i].columns[c].name) != Null;
    }
  }

  // ---------------------------------------------------------------- round trip

  lemma LootNamesAreNotTheExport(rows: seq<Row>, objects: map<nat, Bytes>)
    ensures forall i :: 0 <= i < |LootEntries(rows, objects)| ==> LootEntries(rows, objects)[i].name != EXPORT_NAME
  {
    if rows != [] {
      LootNamesAreNotTheExport(rows[1..], objects);
      LootNameStart(rows[0]);
    }
  }

  lemma LootNameStart(row: Row)
    ensures LootName(row) != EXPORT_NAME
  {
    assert EXPORT_NAME[0] != LOOT_PREFIX[0];
    PrefixFirst(LOOT_PREFIX, Printed(Cell(row, "engagement_id")), "/", Printed(Cell(row, "id")), "_",
                Printed(Cell(row, "original_filename")), ".enc");
  }

  lemma PrefixFirst(a: string, b: string, c: string, d: string, e: string, f: string, g: string)
    requires a != []
    ensures (a + b + c + d + e + f + g)[0] == a[0]
  {
  }

  lemma ArchiveHasExport(scope: Scope, codec: Codec, schema: Schema, db: Db, objects: map<nat, Bytes>)
    requires scope.FullVault? || scope.DatabaseOnly?
    ensures ManifestIn(ArchiveOf(scope, codec, schema, db, objects)) == Some(ExportOf(codec, schema, db))
  {
    var zip := ArchiveOf(scope, codec, schema, db, objects);
    var entries := LootEntries(LootRows(scope, db), objects);
    LootNamesAreNotTheExport(LootRows(scope, db), objects);
    assert zip[0].name == EXPORT_NAME;
    forall j | 0 < j < |zip|
      ensures zip[j].name != zip[0].name
    {
      assert zip[j] == entries[j - 1];
    }
    ReadIsLast(zip, zip[0].name, 0);
  }

  lemma BlankedSound(schema: Schema, source: Db)
    requires WellFormed(schema) && Sound(schema, source)
    ensures Legal(schema, Blanked(source)) && IdsPositive(schema, Blanked(source))
    ensures Blanked(source).Keys == TableNames(schema)
    ensures AgreeOffContents(schema, source, Blanked(source))
  {
    BlankedAgrees(schema, source);
    BlankedIds(schema, source);
    assert Blanked(source).Keys == source.Keys;
    hide WellFormed, Legal, AgreeOffContents, IdsPositive, Blanked, TableNames;
    AgreeLegal(schema, source, Blanked(source));
  }

  lemma BlankedIds(schema: Schema, source: Db)
    requires IdsPositive(schema, source) && AgreeOffContents(schema, source, Blanked(source))
    ensures IdsPositive(schema, Blanked(source))
  {
    hide Blanked;
    forall i, k | 0 <= i < |schema| && HasColumn(schema[i], "id") && 0 <= k < |Rows(Blanked(source), schema[i].name)|
      ensures Cell(Rows(Blanked(source), schema[i].name)[k], "id") == Cell(Rows(source, schema[i].name)[k], "id")
    {
      assert RowsAgree(schema[i].name, Rows(source, schema[i].name), Rows(Blanked(source), schema[i].name));
    }
  }

  /**
    Any archive of a sound store, restored over any legal store, commits its
    tables and the blobs it holds, unless a loot entry's name or id makes it raise.
   */
  lemma ArchiveRestores(isPostgres: bool, scope: Scope, codec: Codec, schema: Schema, source: Db,
                        objects: map<nat, Bytes>, target: Db, oid: nat)
    requires codec.Lawful() && WellFormed(schema) && Sound(schema, source)
    requires scope.FullVault? || scope.DatabaseOnly?
    requires Legal(schema, target) && target.Keys == TableNames(schema)
    ensures var zip := ArchiveOf(scope, codec, schema, source, objects);
      && RestoreOutcome(isPostgres, codec, schema, zip, target, oid)
         == (if LootApplies(isPostgres, schema, zip) then Some(Attached(isPostgres, Blanked(source), BlobsIn(zip), oid))
             else None)
      && DistinctIds(BlobsIn(zip))
      && AgreeOffContents(schema, source, Attached(isPostgres, Blanked(source), BlobsIn(zip), oid))
  {
    var zip := ArchiveOf(scope, codec, schema, source, objects);
    ExportReads(codec, schema, source);
    BlankedSound(schema, source);
    PositiveIdsFit(schema, Blanked(source));
    ExtractedFromEntries(zip, |zip|);
    ArchiveHasExport(scope, codec, schema, source, objects);
    assert BlobsIn(zip) == ExtractBlobs(zip, |zip|);
    var after := Attached(isPostgres, Blanked(source), BlobsIn(zip), oid);
    hide *;
    FullRestoreResult(isPostgres, codec, schema, zip, ExportOf(codec, schema, source), Blanked(source), target, oid);
    AttachedAgrees(schema, isPostgres, Blanked(source), BlobsIn(zip), oid);
    AgreeTransitive(schema, source, Blanked(source), after);
  }

  lemma AgreeTransitive(schema: Schema, a: Db, b: Db, c: Db)
    requires AgreeOffContents(schema, a, b) && AgreeOffContents(schema, b, c)
    ensures AgreeOffContents(schema, a, c)
  {
    forall i | 0 <= i < |schema|
      ensures RowsAgree(schema[i].name, Rows(a, schema[i].name), Rows(c, schema[i].name))
    {
      var ra, rb, rc := Rows(a, schema[i].name), Rows(b, schema[i].name), Rows(c, schema[i].name);
      assert RowsAgree(schema[i].name, ra, rb) && RowsAgree(schema[i].name, rb, rc);
      forall k, col | 0 <= k < |ra|
        ensures Cell(ra[k], col) == Cell(rc[k], col) || (schema[i].name == LOOT_FILES && col in CONTENT_COLUMNS)
      {
        assert Cell(ra[k], col) == Cell(rb[k], col) || (schema[i].name == LOOT_FILES && col in CONTENT_COLUMNS);
      }
    }
  }

  // ---------------------------------------------------------------- blobs

  /** The blob of loot row k after the restore. */
  function RestoredBlob(isPostgres: bool, source: Db, blobs: Blobs, targetObjects: map<nat, Bytes>, oid: nat, k: nat)
    : Option<Bytes>
    requires k < |Rows(Attached(isPostgres, Blanked(source), blobs, oid), LOOT_FILES)|
  {
    LootBlob(Rows(Attached(isPostgres, Blanked(source), blobs, oid), LOOT_FILES)[k],
             ObjectsWith(targetObjects, blobs, oid))
  }

  lemma AttachedBlob(isPostgres: bool, row: Row, blobs: Blobs, targetObjects: map<nat, Bytes>, oid: nat)
    requires DistinctIds(blobs) && Cell(row, "content_oid") == Null && Cell(row, "encrypted_content") == Null
    ensures LootBlob(AttachedRow(isPostgres, row, blobs, oid), ObjectsWith(targetObjects, blobs, oid))
         == match BlobAt(blobs, Cell(row, "id")) case None => None case Some(j) => Some(blobs[j].1)
  {
    match BlobAt(blobs, Cell(row, "id"))
    case None =>
    case Some(j) => ObjectsWithHolds(targetObjects, blobs, oid, j);
  }

  /** A loot row ends up with the extracted blob of its id, or with none. */
  lemma RestoredBlobIs(isPostgres: bool, source: Db, blobs: Blobs, targetObjects: map<nat, Bytes>, oid: nat, k: nat)
    requires DistinctIds(blobs) && k < |Rows(source, LOOT_FILES)|
    ensures |Rows(Attached(isPostgres, Blanked(source), blobs, oid), LOOT_FILES)| == |Rows(source, LOOT_FILES)|
    ensures RestoredBlob(isPostgres, source, blobs, targetObjects, oid, k)
         == match BlobAt(blobs, Cell(Rows(source, LOOT_FILES)[k], "id")) case None => None case Some(j) => Some(blobs[j].1)
  {
    var blank := Blanked(source)[LOOT_FILES];
    AttachRowsPointwise(isPostgres, blank, blobs, oid);
    AttachedBlob(isPostgres, blank[k], blobs, targetObjects, oid);
  }

  lemma LootIdsDiffer(schema: Schema, source: Db)
    requires WellFormed(schema) && Sound(schema, source)
    ensures IdsDiffer(Rows(source, LOOT_FILES))
  {
    if LOOT_FILES in source {
      var i :| 0 <= i < |schema| && schema[i].name == LOOT_FILES;
      assert TableWellFormed(schema, i) && TableLegal(source, schema[i]);
    }
  }

  /**
    Each row of `after` has the non-empty blob of the same row of `before`, if
    any, in the one column of its dialect and, on Postgres, in an object of its own.
   */
  ghost predicate BlobsCarried(isPostgres: bool, after: seq<Row>, afterObjects: map<nat, Bytes>, before: seq<Row>,
                               objects: map<nat, Bytes>)
  {
    && |after| == |before|
    && (forall k :: 0 <= k < |before| ==>
          Holds(isPostgres, after[k], afterObjects, if HasBlob(before[k], objects) then LootBlob(before[k], objects) else None))
    && ObjectsDiffer(after)
  }

  ghost predicate SameBlobs(after: seq<Row>, afterObjects: map<nat, Bytes>, before: seq<Row>, objects: map<nat, Bytes>) {
    && |after| == |before|
    && forall k :: 0 <= k < |before| ==> LootBlob(after[k], afterObjects) == LootBlob(before[k], objects)
  }

  ghost predicate NoEmptyBlob(rows: seq<Row>, objects: map<nat, Bytes>) {
    forall k :: 0 <= k < |rows| ==> LootBlob(rows[k], objects) != Some([])
  }

  lemma CarriedIsSame(isPostgres: bool, after: seq<Row>, afterObjects: map<nat, Bytes>, before: seq<Row>, objects: map<nat, Bytes>)
    requires BlobsCarried(isPostgres, after, afterObjects, before, objects)
    ensures SameBlobs(after, afterObjects, before, objects) <==> NoEmptyBlob(before, objects)
  {
    hide LootBlob, Holds;
    forall k | 0 <= k < |before|
      ensures LootBlob(after[k], afterObjects) == LootBlob(before[k], objects)
         <==> LootBlob(before[k], objects) != Some([])
    {
      HeldBlobIsRead(isPostgres, after[k], afterObjects,
                     if HasBlob(before[k], objects) then LootBlob(before[k], objects) else None);
    }
  }

  /** Every loot row that has a blob is filed under its own id. */
  ghost predicate AllWellFiled(db: Db, objects: map<nat, Bytes>) {
    forall k :: 0 <= k < |Rows(db, LOOT_FILES)| && HasBlob(Rows(db, LOOT_FILES)[k], objects) ==>
      WellFiled(Rows(db, LOOT_FILES)[k])
  }

  lemma {:induction false} EntryOfRow(rows: seq<Row>, objects: map<nat, Bytes>, j: nat) returns (k: nat)
    requires j < |LootEntries(rows, objects)|
    ensures k < |rows| && HasBlob(rows[k], objects)
    ensures LootEntries(rows, objects)[j] == Entry(LootName(rows[k]), Raw(LootBlob(rows[k], objects).value))
  {
    hide LootName, LootBlob;
    if HasBlob(rows[0], objects) && j == 0 {
      k := 0;
    } else {
      var k' := EntryOfRow(rows[1..], objects, if HasBlob(rows[0], objects) then j - 1 else j);
      k := k' + 1;
    }
  }

  lemma {:induction false} ReadIsSomeEntry(zip: Zip, name: string) returns (i: nat)
    requires HasEntry(zip, name)
    ensures i < |zip| && zip[i].name == name && ReadEntry(zip, name) == zip[i].content
  {
    if zip[|zip| - 1].name == name {
      i := |zip| - 1;
    } else {
      var m :| 0 <= m < |zip| && zip[m].name == name;
      assert zip[..|zip| - 1][m].name == name;
      i := ReadIsSomeEntry(zip[..|zip| - 1], name);
    }
  }

  lemma FullVaultShape(codec: Codec, schema: Schema, source: Db, objects: map<nat, Bytes>)
    ensures var zip := ArchiveOf(FullVault, codec, schema, source, objects);
      zip != [] && zip[0].name == EXPORT_NAME && LootIdOf(zip[0].name) == None && zip[1..] == LootEntries(Rows(source, LOOT_FILES), objects)
  {
    hide LootIdOf, LootEntries;
    ExportIsNoLootEntry();
  }

  /** Every extracted blob is the blob of some loot row whose entry is filed under that id. */
  lemma ExtractedIsFiled(codec: Codec, schema: Schema, source: Db, objects: map<nat, Bytes>, b: (nat, Bytes))
    returns (k: nat)
    requires b in BlobsIn(ArchiveOf(FullVault, codec, schema, source, objects))
    ensures k < |Rows(source, LOOT_FILES)| && HasBlob(Rows(source, LOOT_FILES)[k], objects)
    ensures LootIdOf(LootName(Rows(source, LOOT_FILES)[k])) == Some(b.0)
    ensures LootBlob(Rows(source, LOOT_FILES)[k], objects) == Some(b.1)
  {
    hide LootIdOf, LootName, LootBlob, ArchiveOf, LootEntries, ExtractBlobs, ReadEntry;
    var zip := ArchiveOf(FullVault, codec, schema, source, objects);
    FullVaultShape(codec, schema, source, objects);
    ExtractedFromEntries(zip, |zip|);
    assert FromEntry(zip, b);
    var n :| 0 <= n < |zip| && LootIdOf(zip[n].name) == Some(b.0) && EntryBytes(zip, zip[n].name) == b.1;
    var i := ReadIsSomeEntry(zip, zip[n].name);
    k := EntryOfRow(Rows(source, LOOT_FILES), objects, i - 1);
  }

  /** Ids in a typed store are 64-bit numbers. */
  lemma LootIdFits(schema: Schema, source: Db, k: nat)
    requires WellFormed(schema) && Sound(schema, source) && k < |Rows(source, LOOT_FILES)|
    ensures var id := Cell(Rows(source, LOOT_FILES)[k], "id"); id.Int? && Is64Bit(id.n) && id.n >= 1
  {
    var i :| 0 <= i < |schema| && schema[i].name == LOOT_FILES;
    assert TableWellFormed(schema, i) && RowTyped(schema[i], Rows(source, LOOT_FILES)[k]);
    var c :| 0 <= c < |schema[i].columns| && schema[i].columns[c].name == "id";
    assert Typed(Cell(Rows(source, LOOT_FILES)[k], schema[i].columns[c].name), schema[i].columns[c].colType);
  }

  lemma FiledIsReadable(name: string)
    requires LootIdOf(name).Some?
    ensures !FilingOf(name).Unreadable?
  {
  }

  /** Nothing about the loot entries of a well-filed store makes a restore raise. */
  lemma WellFiledApplies(isPostgres: bool, codec: Codec, schema: Schema, source: Db, objects: map<nat, Bytes>)
    requires WellFormed(schema) && Sound(schema, source) && AllWellFiled(source, objects)
    ensures LootApplies(isPostgres, schema, ArchiveOf(FullVault, codec, schema, source, objects))
  {
    hide FilingOf, LootIdOf, LootName, LootBlob, ArchiveOf, LootEntries, Sound, WellFormed, HasTable, BlobsIn, Is64Bit;
    var zip := ArchiveOf(FullVault, codec, schema, source, objects);
    var rows := Rows(source, LOOT_FILES);
    FullVaultShape(codec, schema, source, objects);
    forall i | 0 <= i < |zip|
      ensures !FilingOf(zip[i].name).Unreadable?
    {
      if i == 0 {
        ExportIsUnfiled(zip[0].name);
      } else {
        assert zip[i] == zip[1..][i - 1];
        var k := EntryOfRow(rows, objects, i - 1);
        assert WellFiled(rows[k]);
        FiledIsReadable(zip[i].name);
      }
    }
    forall j | 0 <= j < |BlobsIn(zip)|
      ensures Is64Bit(BlobsIn(zip)[j].0)
    {
      var k := ExtractedIsFiled(codec, schema, source, objects, BlobsIn(zip)[j]);
      assert WellFiled(rows[k]);
      LootIdFits(schema, source, k);
    }
  }

  lemma ExportIsUnfiled(name: string)
    requires name == EXPORT_NAME
    ensures FilingOf(name) == Unfiled
  {
    assert EXPORT_NAME[0] != LOOT_PREFIX[0];
  }

  /**
    Full-vault round trip.  Restoring the archive of a sound store over any
    legal store, on either dialect, commits the same rows in every table and
    gives each loot id the bytes it had; only Large Object oids may differ.
   */
  lemma FullVaultRoundTrip(isPostgres: bool, codec: Codec, schema: Schema, source: Db, objects: map<nat, Bytes>,
                           target: Db, targetObjects: map<nat, Bytes>, oid: nat)
    requires codec.Lawful() && WellFormed(schema) && Sound(schema, source) && AllWellFiled(source, objects)
    requires Legal(schema, target) && target.Keys == TableNames(schema)
    ensures var zip := ArchiveOf(FullVault, codec, schema, source, objects);
      var after := Attached(isPostgres, Blanked(source), BlobsIn(zip), oid);
      && RestoreOutcome(isPostgres, codec, schema, zip, target, oid) == Some(after)
      && AgreeOffContents(schema, source, after)
      && BlobsCarried(isPostgres, Rows(after, LOOT_FILES), ObjectsWith(targetObjects, BlobsIn(zip), oid),
                      Rows(source, LOOT_FILES), objects)
  {
    var zip := ArchiveOf(FullVault, codec, schema, source, objects);
    ArchiveRestores(isPostgres, FullVault, codec, schema, source, objects, target, oid);
    WellFiledApplies(isPostgres, codec, schema, source, objects);
    LootIdsDiffer(schema, source);
    ArchiveExtracts(FullVault, codec, schema, source, objects);
    assert BlobsIn(zip) == BlobsOf(Rows(source, LOOT_FILES), objects);
    assert Scope.FullVault.FullVault?;
    hide *;
    BlobsAreCarried(isPostgres, source, objects, BlobsIn(zip), targetObjects, oid);
  }

  lemma BlobsAreCarried(isPostgres: bool, source: Db, objects: map<nat, Bytes>, blobs: Blobs,
                        targetObjects: map<nat, Bytes>, oid: nat)
    requires AllWellFiled(source, objects) && IdsDiffer(Rows(source, LOOT_FILES))
    requires DistinctIds(blobs) && blobs == BlobsOf(Rows(source, LOOT_FILES), objects)
    ensures BlobsCarried(isPostgres, Rows(Attached(isPostgres, Blanked(source), blobs, oid), LOOT_FILES),
                         ObjectsWith(targetObjects, blobs, oid), Rows(source, LOOT_FILES), objects)
  {
    var rows := Rows(source, LOOT_FILES);
    BlanksPlaced(isPostgres, source, blobs, targetObjects, oid);
    var after := Rows(Attached(isPostgres, Blanked(source), blobs, oid), LOOT_FILES);
    hide LootIdOf, LootName, HasBlob, LootBlob, Attached, WellFiled, BlobsOf, ObjectsWith, IdsDiffer, DistinctIds, Blanked,
         Holds;
    forall k | 0 <= k < |rows|
      ensures Holds(isPostgres, after[k], ObjectsWith(targetObjects, blobs, oid),
                    if HasBlob(rows[k], objects) then LootBlob(rows[k], objects) else None)
    {
      BlobOfRow(rows, objects, k);
    }
  }

  lemma BlanksPlaced(isPostgres: bool, source: Db, blobs: Blobs, objects: map<nat, Bytes>, oid: nat)
    requires IdsDiffer(Rows(source, LOOT_FILES)) && DistinctIds(blobs)
    ensures var rows, after := Rows(source, LOOT_FILES), Rows(Attached(isPostgres, Blanked(source), blobs, oid), LOOT_FILES);
      && |after| == |rows|
      && (forall k :: 0 <= k < |rows| ==> Cell(after[k], "id") == Cell(rows[k], "id"))
      && ContentsPlaced(isPostgres, after, ObjectsWith(objects, blobs, oid), blobs)
  {
    hide ContentsPlaced;
    if LOOT_FILES in source {
      AttachedContents(isPostgres, Blanked(source)[LOOT_FILES], blobs, objects, oid);
    } else {
      assert ContentsPlaced(isPostgres, [], ObjectsWith(objects, blobs, oid), blobs) by { NothingPlaced(isPostgres, objects, blobs, oid); }
    }
  }

  lemma NothingPlaced(isPostgres: bool, objects: map<nat, Bytes>, blobs: Blobs, oid: nat)
    ensures ContentsPlaced(isPostgres, [], ObjectsWith(objects, blobs, oid), blobs)
  {
  }

  lemma AttachedLength(isPostgres: bool, source: Db, blobs: Blobs, oid: nat)
    requires DistinctIds(blobs)
    ensures |Rows(Attached(isPostgres, Blanked(source), blobs, oid), LOOT_FILES)| == |Rows(source, LOOT_FILES)|
  {
    if LOOT_FILES in source {
      AttachRowsPointwise(isPostgres, Blanked(source)[LOOT_FILES], blobs, oid);
    }
  }

  /** How SQLite stores a loot file: inline, never empty. */
  predicate InlineBlob(row: Row) {
    && "content_oid" in row && row["content_oid"] == Null
    && "encrypted_content" in row
    && match row["encrypted_content"]
       case Null => true
       case Binary(b) => b != []
       case _ => false
  }

  ghost predicate InlineBlobs(rows: seq<Row>) {
    forall k :: 0 <= k < |rows| ==> InlineBlob(rows[k])
  }

  lemma InlineRowRestored(row: Row, blobs: Blobs, oid: nat, objects: map<nat, Bytes>)
    requires InlineBlob(row)
    requires var at := BlobAt(blobs, Cell(row, "id"));
      if HasBlob(row, objects) then at.Some? && Some(blobs[at.value].1) == LootBlob(row, objects) else at == None
    ensures AttachedRow(false, row["content_oid" := Null]["encrypted_content" := Null], blobs, oid) == row
  {
    var back := AttachedRow(false, row["content_oid" := Null]["encrypted_content" := Null], blobs, oid);
    assert back.Keys == row.Keys;
    forall c | c in row
      ensures back[c] == row[c]
    {
    }
  }

  /** On SQLite the round trip is the identity on the whole database. */
  lemma InlineRoundTrip(codec: Codec, schema: Schema, source: Db, objects: map<nat, Bytes>, target: Db, oid: nat)
    requires codec.Lawful() && WellFormed(schema) && Sound(schema, source) && AllWellFiled(source, objects)
    requires InlineBlobs(Rows(source, LOOT_FILES))
    requires Legal(schema, target) && target.Keys == TableNames(schema)
    ensures RestoreOutcome(false, codec, schema, ArchiveOf(FullVault, codec, schema, source, objects), target, oid)
         == Some(source)
  {
    var zip := ArchiveOf(FullVault, codec, schema, source, objects);
    ArchiveRestores(false, FullVault, codec, schema, source, objects, target, oid);
    WellFiledApplies(false, codec, schema, source, objects);
    LootIdsDiffer(schema, source);
    ArchiveExtracts(FullVault, codec, schema, source, objects);
    assert BlobsIn(zip) == BlobsOf(Rows(source, LOOT_FILES), objects);
    hide *;
    InlineAttached(source, objects, BlobsIn(zip), oid);
  }

  lemma InlineAttached(source: Db, objects: map<nat, Bytes>, blobs: Blobs, oid: nat)
    requires AllWellFiled(source, objects) && IdsDiffer(Rows(source, LOOT_FILES))
    requires InlineBlobs(Rows(source, LOOT_FILES))
    requires DistinctIds(blobs) && blobs == BlobsOf(Rows(source, LOOT_FILES), objects)
    ensures Attached(false, Blanked(source), blobs, oid) == source
  {
    if LOOT_FILES in source {
      var rows, blank := source[LOOT_FILES], Blanked(source)[LOOT_FILES];
      AttachRowsPointwise(false, blank, blobs, oid);
      var attached := AttachRows(false, blank, blobs, oid);
      forall k | 0 <= k < |rows|
        ensures attached[k] == rows[k]
      {
        InlineRow(rows, objects, blobs, oid, k);
      }
      assert attached == rows;
      assert Blanked(source)[LOOT_FILES := rows] == source;
    }
  }

  lemma InlineRow(rows: seq<Row>, objects: map<nat, Bytes>, blobs: Blobs, oid: nat, k: nat)
    requires forall i :: 0 <= i < |rows| && HasBlob(rows[i], objects) ==> WellFiled(rows[i])
    requires IdsDiffer(rows) && InlineBlobs(rows) && blobs == BlobsOf(rows, objects) && k < |rows|
    ensures AttachedRow(false, rows[k]["content_oid" := Null]["encrypted_content" := Null], blobs, oid) == rows[k]
  {
    hide HasBlob, LootBlob, WellFiled, BlobsOf, IdsDiffer, AttachedRow, InlineBlob;
    BlobOfRow(rows, objects, k);
    InlineRowRestored(rows[k], blobs, oid, objects);
  }

  /** No two loot files hold the same bytes, as is the case for files encrypted under fresh nonces. */
  ghost predicate BlobsDiffer(rows: seq<Row>, objects: map<nat, Bytes>) {
    forall p, q :: 0 <= p < q < |rows| && HasBlob(rows[p], objects) && HasBlob(rows[q], objects) ==>
      LootBlob(rows[p], objects) != LootBlob(rows[q], objects)
  }

  /** After the restore, which did not raise, loot row k has the blob it had. */
  ghost predicate BlobComesBack(after: Option<Db>, afterObjects: map<nat, Bytes>, source: Db, objects: map<nat, Bytes>,
                                k: nat)
    requires k < |Rows(source, LOOT_FILES)|
  {
    && after.Some?
    && |Rows(after.value, LOOT_FILES)| == |Rows(source, LOOT_FILES)|
    && LootBlob(Rows(after.value, LOOT_FILES)[k], afterObjects) == LootBlob(Rows(source, LOOT_FILES)[k], objects)
  }

  /** A blob whose entry is filed under another id, under none, or unreadably, does not come back. */
  lemma MisfiledIsLost(isPostgres: bool, codec: Codec, schema: Schema, source: Db, objects: map<nat, Bytes>,
                       target: Db, targetObjects: map<nat, Bytes>, oid: nat, k: nat)
    requires codec.Lawful() && WellFormed(schema) && Sound(schema, source)
    requires Legal(schema, target) && target.Keys == TableNames(schema)
    requires k < |Rows(source, LOOT_FILES)| && HasBlob(Rows(source, LOOT_FILES)[k], objects)
    requires !WellFiled(Rows(source, LOOT_FILES)[k]) && BlobsDiffer(Rows(source, LOOT_FILES), objects)
    ensures var zip := ArchiveOf(FullVault, codec, schema, source, objects);
      !BlobComesBack(RestoreOutcome(isPostgres, codec, schema, zip, target, oid),
                     ObjectsWith(targetObjects, BlobsIn(zip), oid), source, objects, k)
  {
    var zip := ArchiveOf(FullVault, codec, schema, source, objects);
    ArchiveRestores(isPostgres, FullVault, codec, schema, source, objects, target, oid);
    hide *;
    MisfiledBlobDiffers(isPostgres, codec, schema, source, objects, targetObjects, oid, k);
    LostUnlessEqual(isPostgres, source, objects, BlobsIn(zip), targetObjects, oid, k,
                    RestoreOutcome(isPostgres, codec, schema, zip, target, oid));
  }

  lemma LostUnlessEqual(isPostgres: bool, source: Db, objects: map<nat, Bytes>, blobs: Blobs,
                        targetObjects: map<nat, Bytes>, oid: nat, k: nat, after: Option<Db>)
    requires k < |Rows(source, LOOT_FILES)|
    requires |Rows(Attached(isPostgres, Blanked(source), blobs, oid), LOOT_FILES)| == |Rows(source, LOOT_FILES)|
    requires after == None || after == Some(Attached(isPostgres, Blanked(source), blobs, oid))
    requires RestoredBlob(isPostgres, source, blobs, targetObjects, oid, k) != LootBlob(Rows(source, LOOT_FILES)[k], objects)
    ensures !BlobComesBack(after, ObjectsWith(targetObjects, blobs, oid), source, objects, k)
  {
    hide Attached, Blanked, LootBlob, ObjectsWith;
  }

  lemma MisfiledBlobDiffers(isPostgres: bool, codec: Codec, schema: Schema, source: Db, objects: map<nat, Bytes>,
                            targetObjects: map<nat, Bytes>, oid: nat, k: nat)
    requires k < |Rows(source, LOOT_FILES)| && HasBlob(Rows(source, LOOT_FILES)[k], objects)
    requires !WellFiled(Rows(source, LOOT_FILES)[k]) && BlobsDiffer(Rows(source, LOOT_FILES), objects)
    ensures var blobs := BlobsIn(ArchiveOf(FullVault, codec, schema, source, objects));
      && |Rows(Attached(isPostgres, Blanked(source), blobs, oid), LOOT_FILES)| == |Rows(source, LOOT_FILES)|
      && RestoredBlob(isPostgres, source, blobs, targetObjects, oid, k) != LootBlob(Rows(source, LOOT_FILES)[k], objects)
  {
    var zip := ArchiveOf(FullVault, codec, schema, source, objects);
    var rows := Rows(source, LOOT_FILES);
    ExtractedFromEntries(zip, |zip|);
    hide LootIdOf, LootName, LootBlob, RestoredBlob, ArchiveOf, Attached;
    RestoredBlobIs(isPostgres, source, BlobsIn(zip), targetObjects, oid, k);
    match BlobAt(BlobsIn(zip), Cell(rows[k], "id"))
    case None =>
    case Some(j) =>
      var b := BlobsIn(zip)[j];
      assert b in BlobsIn(zip);
      var m := ExtractedIsFiled(codec, schema, source, objects, b);
      assert m != k;
  }

  /** What the restore makes of every loot blob: the same bytes, and nothing where there was nothing. */
  ghost predicate BlobsSurvive(isPostgres: bool, codec: Codec, schema: Schema, source: Db, objects: map<nat, Bytes>,
                               target: Db, targetObjects: map<nat, Bytes>, oid: nat)
  {
    var zip := ArchiveOf(FullVault, codec, schema, source, objects);
    var after := RestoreOutcome(isPostgres, codec, schema, zip, target, oid);
    && after.Some?
    && SameBlobs(Rows(after.value, LOOT_FILES), ObjectsWith(targetObjects, BlobsIn(zip), oid),
                 Rows(source, LOOT_FILES), objects)
  }

  /**
    Exactly when blobs survive: for stores whose blobs differ from each other,
    the restore commits and every blob comes back if and only if every entry is
    filed under its own id and no blob is empty.
   */
  lemma BlobsSurviveIff(isPostgres: bool, codec: Codec, schema: Schema, source: Db, objects: map<nat, Bytes>,
                        target: Db, targetObjects: map<nat, Bytes>, oid: nat)
    requires codec.Lawful() && WellFormed(schema) && Sound(schema, source)
    requires Legal(schema, target) && target.Keys == TableNames(schema)
    requires BlobsDiffer(Rows(source, LOOT_FILES), objects)
    ensures BlobsSurvive(isPostgres, codec, schema, source, objects, target, targetObjects, oid)
       <==> AllWellFiled(source, objects) && NoEmptyBlob(Rows(source, LOOT_FILES), objects)
  {
    if AllWellFiled(source, objects) {
      WellFiledSurvive(isPostgres, codec, schema, source, objects, target, targetObjects, oid);
    } else {
      var k :| 0 <= k < |Rows(source, LOOT_FILES)| && HasBlob(Rows(source, LOOT_FILES)[k], objects)
               && !WellFiled(Rows(source, LOOT_FILES)[k]);
      MisfiledIsLost(isPostgres, codec, schema, source, objects, target, targetObjects, oid, k);
      hide LootIdOf, LootName, LootBlob, ArchiveOf, Attached, WellFormed, Sound, Legal, BlobsIn, ObjectsWith, BlobsDiffer,
           NoEmptyBlob, RestoreOutcome;
    }
  }

  lemma WellFiledSurvive(isPostgres: bool, codec: Codec, schema: Schema, source: Db, objects: map<nat, Bytes>,
                         target: Db, targetObjects: map<nat, Bytes>, oid: nat)
    requires codec.Lawful() && WellFormed(schema) && Sound(schema, source) && AllWellFiled(source, objects)
    requires Legal(schema, target) && target.Keys == TableNames(schema)
    ensures BlobsSurvive(isPostgres, codec, schema, source, objects, target, targetObjects, oid)
       <==> NoEmptyBlob(Rows(source, LOOT_FILES), objects)
  {
    FullVaultRoundTrip(isPostgres, codec, schema, source, objects, target, targetObjects, oid);
    hide ArchiveOf, Attached, WellFormed, Sound, Legal, AllWellFiled, BlobsIn, AgreeOffContents, RestoreOutcome,
         ObjectsWith, Blanked, Rows, BlobsCarried, SameBlobs, NoEmptyBlob;
    var blobs := BlobsIn(ArchiveOf(FullVault, codec, schema, source, objects));
    CarriedIsSame(isPostgres, Rows(Attached(isPostgres, Blanked(source), blobs, oid), LOOT_FILES),
                  ObjectsWith(targetObjects, blobs, oid), Rows(source, LOOT_FILES), objects);
  }

  // ---------------------------------------------------------------- file names

  /** What filing under the own id means for the file name. */
  lemma WellFiledIff(row: Row, id: nat, filename: string)
    requires Cell(row, "id") == Int(id) && Is64Bit(id) && Cell(row, "original_filename") == Text(filename)
    ensures WellFiled(row)
       <==> ('/' !in filename || FilingOfBasename(AfterLast(filename, '/') + ".enc") == FiledUnder(id))
  {
    ArcNameFiling(Cell(row, "engagement_id"), id, filename);
    hide FilingOf, ArcName, FilingOfBasename;
  }

  /** The names `secure_filename` gives: ASCII letters, digits, "_", "-" and "." only. */
  predicate IsSecureChar(c: char) {
    'a' <= c <= 'z' || 'A' <= c <= 'Z' || '0' <= c <= '9' || c == '_' || c == '-' || c == '.'
  }

  predicate SecureName(name: string) {
    forall i :: 0 <= i < |name| ==> IsSecureChar(name[i])
  }

  /** The name both upload routes store: `secure_filename(...) or "upload.bin"`. */
  function StoredName(secured: string): (name: string)
    requires SecureName(secured)
    ensures SecureName(name) && name != [] && '/' !in name
  {
    if secured == "" then "upload.bin" else secured
  }

  /** Every loot file was named by an upload. */
  ghost predicate NamedByUpload(db: Db) {
    forall k :: 0 <= k < |Rows(db, LOOT_FILES)| ==>
      var name := Cell(Rows(db, LOOT_FILES)[k], "original_filename");
      name.Text? && SecureName(name.s)
  }

  lemma UploadsAreWellFiled(schema: Schema, source: Db, objects: map<nat, Bytes>)
    requires WellFormed(schema) && Sound(schema, source) && NamedByUpload(source)
    ensures AllWellFiled(source, objects)
  {
    hide WellFiled, WellFormed, Sound, HasBlob;
    forall k | 0 <= k < |Rows(source, LOOT_FILES)|
      ensures WellFiled(Rows(source, LOOT_FILES)[k])
    {
      var row := Rows(source, LOOT_FILES)[k];
      LootIdFits(schema, source, k);
      WellFiledIff(row, Cell(row, "id").n, Cell(row, "original_filename").s);
    }
  }

  /** What the upload routes store comes back from every full-vault archive, whatever was uploaded. */
  lemma UploadedVaultRoundTrip(isPostgres: bool, codec: Codec, schema: Schema, source: Db, objects: map<nat, Bytes>,
                               target: Db, targetObjects: map<nat, Bytes>, oid: nat)
    requires codec.Lawful() && WellFormed(schema) && Sound(schema, source) && NamedByUpload(source)
    requires Legal(schema, target) && target.Keys == TableNames(schema)
    ensures var zip := ArchiveOf(FullVault, codec, schema, source, objects);
      var after := RestoreOutcome(isPostgres, codec, schema, zip, target, oid);
      && after.Some?
      && AgreeOffContents(schema, source, after.value)
      && BlobsCarried(isPostgres, Rows(after.value, LOOT_FILES), ObjectsWith(targetObjects, BlobsIn(zip), oid),
                      Rows(source, LOOT_FILES), objects)
  {
    UploadsAreWellFiled(schema, source, objects);
    FullVaultRoundTrip(isPostgres, codec, schema, source, objects, target, targetObjects, oid);
  }

  // ---------------------------------------------------------------- file names with a slash

  lemma BaseNameExamples()
    ensures FilingOfBasename("b.enc") == Unfiled
    ensures FilingOfBasename("7_x.enc") == FiledUnder(7)
  {
    hide ParseInt;
    assert BeforeFirst("b.enc", '_')[0] == 'b';
    BeforeFirstAt("7", '_', "x.enc");
    assert "7" + ['_'] + "x.enc" == "7_x.enc";
    OneDigit('7');
  }

  lemma SlashFiling(engagementId: Value, id: nat, head: string, tail: string)
    requires '/' !in tail && Is64Bit(id)
    ensures FilingOf(ArcName(engagementId, Int(id), Text(head + "/" + tail))) == FilingOfBasename(tail + ".enc")
  {
    hide FilingOf, ArcName, FilingOfBasename;
    ArcNameFiling(engagementId, id, head + "/" + tail);
    assert (head + "/" + tail)[|head|] == '/';
    assert head + "/" + tail == head + ['/'] + tail;
    AfterLastAt(head, '/', tail);
  }

  /** The loot file 5 named "a/b" is filed under no id, and the one named "a/7_x" under loot file 7. */
  lemma SlashExamples(engagementId: Value)
    ensures FilingOf(ArcName(engagementId, Int(5), Text("a" + "/" + "b"))) == Unfiled
    ensures FilingOf(ArcName(engagementId, Int(5), Text("a" + "/" + "7_x"))) == FiledUnder(7)
  {
    hide FilingOf, ArcName, FilingOfBasename;
    SlashFiling(engagementId, 5, "a", "b");
    SlashFiling(engagementId, 5, "a", "7_x");
    assert "b" + ".enc" == "b.enc" && "7_x" + ".enc" == "7_x.enc";
    BaseNameExamples();
  }

  lemma TwoLootEntries(rows: seq<Row>, objects: map<nat, Bytes>)
    requires |rows| == 2 && HasBlob(rows[0], objects) && HasBlob(rows[1], objects)
    ensures LootEntries(rows, objects) == [
      Entry(LootName(rows[0]), Raw(LootBlob(rows[0], objects).value)),
      Entry(LootName(rows[1]), Raw(LootBlob(rows[1], objects).value))]
  {
    hide LootName, LootBlob;
    assert rows[1..] == [rows[1]];
    assert [rows[1]][1..] == [];
    assert LootEntries([rows[1]], objects) == [Entry(LootName(rows[1]), Raw(LootBlob(rows[1], objects).value))]
      + LootEntries([rows[1]][1..], objects);
  }

  lemma ExtractStep(zip: Zip, n: nat)
    requires n < |zip|
    ensures HasEntry(zip, zip[n].name)
    ensures ExtractBlobs(zip, n + 1) ==
      match LootIdOf(zip[n].name)
      case None => ExtractBlobs(zip, n)
      case Some(id) => Put(ExtractBlobs(zip, n), id, EntryBytes(zip, zip[n].name))
  {
    hide LootIdOf, EntryBytes, Put;
  }

  /** Extraction from an archive of one export and two loot entries, the first filed under 7. */
  lemma TwoEntriesExtract(zip: Zip)
    requires |zip| == 3 && zip[0].name == EXPORT_NAME && zip[1].content.Raw? && zip[2].content.Raw?
    requires LootIdOf(zip[1].name) == Some(7)
    ensures LootIdOf(zip[2].name) == Some(7) ==> BlobsIn(zip) == [(7, zip[2].content.bytes)]
    ensures LootIdOf(zip[2].name) == None ==> BlobsIn(zip) == [(7, zip[1].content.bytes)]
  {
    hide LootIdOf, ExtractBlobs, ReadEntry;
    ExportIsNoLootEntry();
    assert ExtractBlobs(zip, 0) == [] by { NothingToExtract(zip, 0); }
    ExtractStep(zip, 0);
    ExtractStep(zip, 1);
    ExtractStep(zip, 2);
    ReadIsLast(zip, zip[2].name, 2);
    if zip[1].name != zip[2].name {
      ReadIsLast(zip, zip[1].name, 1);
    }
  }

  /** Two loot files with contents: 7, named by an upload, and 5, named either "a/b" or "a/7_x". */
  ghost predicate SlashedVault(source: Db, objects: map<nat, Bytes>, first: string, second: string) {
    var rows := Rows(source, LOOT_FILES);
    && |rows| == 2 && HasBlob(rows[0], objects) && HasBlob(rows[1], objects)
    && Cell(rows[0], "id") == Int(7) && Cell(rows[0], "original_filename") == Text(first) && SecureName(first)
    && Cell(rows[1], "id") == Int(5) && Cell(rows[1], "original_filename") == Text(second)
    && (second == "a" + "/" + "b" || second == "a" + "/" + "7_x")
  }

  /** Whose blob loot file 7 has after the round trip. */
  function SlashWinner(second: string): nat
    ensures SlashWinner(second) < 2
  {
    if second == "a" + "/" + "b" then 0 else 1
  }

  /**
    File names with a slash, which only a foreign or hand-made archive brings
    in.  A full-vault round trip loses the blob of the loot file named "a/b";
    were it named "a/7_x", the round trip would give its blob to loot file 7,
    whose own blob is lost.
   */
  lemma SlashMisfiles(isPostgres: bool, codec: Codec, schema: Schema, source: Db, objects: map<nat, Bytes>,
                      target: Db, targetObjects: map<nat, Bytes>, oid: nat, first: string, second: string)
    requires codec.Lawful() && WellFormed(schema) && Sound(schema, source)
    requires Legal(schema, target) && target.Keys == TableNames(schema)
    requires SlashedVault(source, objects, first, second)
    ensures var zip := ArchiveOf(FullVault, codec, schema, source, objects);
      var after := RestoreOutcome(isPostgres, codec, schema, zip, target, oid);
      var afterObjects := ObjectsWith(targetObjects, BlobsIn(zip), oid);
      && after.Some? && |Rows(after.value, LOOT_FILES)| == 2
      && LootBlob(Rows(after.value, LOOT_FILES)[1], afterObjects) == None
      && LootBlob(Rows(after.value, LOOT_FILES)[0], afterObjects)
         == LootBlob(Rows(source, LOOT_FILES)[SlashWinner(second)], objects)
  {
    var zip := ArchiveOf(FullVault, codec, schema, source, objects);
    var winner := Rows(source, LOOT_FILES)[SlashWinner(second)];
    ArchiveRestores(isPostgres, FullVault, codec, schema, source, objects, target, oid);
    SlashBlobs(codec, schema, source, objects, first, second);
    assert HasBlob(winner, objects);
    OneBlobApplies(isPostgres, schema, zip, LootBlob(winner, objects).value);
    hide *;
    TwoRowsRestored(isPostgres, source, objects, BlobsIn(zip), targetObjects, oid, LootBlob(winner, objects).value);
  }

  lemma OneBlobApplies(isPostgres: bool, schema: Schema, zip: Zip, bytes: Bytes)
    requires NamesReadable(zip) && BlobsIn(zip) == [(7, bytes)]
    ensures LootApplies(isPostgres, schema, zip)
  {
  }

  lemma SlashBlobs(codec: Codec, schema: Schema, source: Db, objects: map<nat, Bytes>, first: string, second: string)
    requires SlashedVault(source, objects, first, second)
    ensures var zip := ArchiveOf(FullVault, codec, schema, source, objects);
      && NamesReadable(zip)
      && BlobsIn(zip) == [(7, LootBlob(Rows(source, LOOT_FILES)[SlashWinner(second)], objects).value)]
  {
    var zip := ArchiveOf(FullVault, codec, schema, source, objects);
    var rows := Rows(source, LOOT_FILES);
    hide FilingOf, ArcName, LootBlob, BlobsIn, FilingOfBasename;
    FullVaultShape(codec, schema, source, objects);
    TwoLootEntries(rows, objects);
    assert zip[1] == zip[1..][0] && zip[2] == zip[1..][1];
    ArcNameFiling(Cell(rows[0], "engagement_id"), 7, first);
    SlashExamples(Cell(rows[1], "engagement_id"));
    ExportIsUnfiled(zip[0].name);
    hide ArchiveOf, LootEntries, HasBlob;
    TwoEntriesExtract(zip);
  }

  lemma TwoRowsRestored(isPostgres: bool, source: Db, objects: map<nat, Bytes>, blobs: Blobs,
                        targetObjects: map<nat, Bytes>, oid: nat, bytes: Bytes)
    requires |Rows(source, LOOT_FILES)| == 2 && blobs == [(7, bytes)]
    requires Cell(Rows(source, LOOT_FILES)[0], "id") == Int(7) && Cell(Rows(source, LOOT_FILES)[1], "id") == Int(5)
    ensures var after := Attached(isPostgres, Blanked(source), blobs, oid);
      && |Rows(after, LOOT_FILES)| == 2
      && LootBlob(Rows(after, LOOT_FILES)[0], ObjectsWith(targetObjects, blobs, oid)) == Some(bytes)
      && LootBlob(Rows(after, LOOT_FILES)[1], ObjectsWith(targetObjects, blobs, oid)) == None
  {
    hide LootBlob, Attached, Blanked, ObjectsWith;
    RestoredBlobIs(isPostgres, source, blobs, targetObjects, oid, 0);
    RestoredBlobIs(isPostgres, source, blobs, targetObjects, oid, 1);
    assert blobs[1..] == [];
  }
}
