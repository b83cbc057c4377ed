/** Applying an archive to the database, as one transaction. */
module RestoreService {
  import opened Wrappers
  import opened ByteStrings
  import opened LargeObjects
  import opened Database
  import opened Archive
  import opened RestorePlan
  import opened RestoreSafety
  import opened RestoreContents
  import opened RestoreRoundTrip
  import opened RestoreTheorems
  import opened Sessions
  import opened Numerals

  datatype RestoreError = NoExport | UnreadableExport | UnreadableName | UnreadableValue | StatementFailed | NoBlobs

  datatype Summary = Summary(rowCounts: map<string, nat>, lootRestored: nat, lootInArchive: nat)

  /** The blobs of an archive by loot id; raises at the first name whose digits are no number. */
  method ExtractLootBlobs(zip: Zip) returns (r: Result<Blobs, RestoreError>)
    ensures r == if NamesReadable(zip) then Ok(BlobsIn(zip)) else Err(UnreadableName)
  {
    hide FilingOf, EntryBytes, Put;
    var blobs := [];
    var i := 0;
    while i < |zip|
      invariant i <= |zip|
      invariant forall j :: 0 <= j < i ==> !FilingOf(zip[j].name).Unreadable?
      invariant blobs == ExtractBlobs(zip, i)
    {
      match FilingOf(zip[i].name) {
        case Unfiled =>
        case Unreadable =>
          return Err(UnreadableName);
        case FiledUnder(id) =>
          blobs := Put(blobs, id, EntryBytes(zip, zip[i].name));
      }
      i := i + 1;
    }
    r := Ok(blobs);
  }

  /** Nulls a row's self-references and remembers them as updates for later. */
  method ClearSelfRefs(t: Table, full: Row) returns (row: Row, deferred: seq<Stmt>)
    ensures row == Cleared(full, SelfRefs(t)) && deferred == Deferred(t, full, SelfRefs(t))
  {
    var columns := SelfRefs(t);
    row, deferred := full, [];
    var i := 0;
    assert columns[0..] == columns;
    while i < |columns|
      invariant i <= |columns|
      invariant Cleared(full, columns) == Cleared(row, columns[i..])
      invariant Deferred(t, full, columns) == deferred + Deferred(t, row, columns[i..])
    {
      var c := columns[i];
      assert columns[i..][0] == c && columns[i..][1..] == columns[i + 1..];
      if Cell(row, c) != Null {
        deferred := deferred + [UpdateWhereId(t.name, Cell(row, "id"), map[c := Cell(row, c)])];
        row := row[c := Null];
      }
      i := i + 1;
    }
  }

  lemma SnocRows(codec: Codec, t: Table, raws: seq<JsonRow>, raw: JsonRow)
    ensures DeserializeRows(codec, t, raws + [raw]) ==
      match (DeserializeRows(codec, t, raws), DeserializeColumns(codec, t.columns, raw))
      case (Some(rows), Some(row)) => Some(rows + [Blank(t, row)])
      case _ => None
  {
    hide DeserializeColumns, Blank;
    if raws == [] {
      assert [raw][1..] == [];
      assert raws + [raw] == [raw];
      assert DeserializeRows(codec, t, [raw][1..]) == Some([]);
      var row := DeserializeColumns(codec, t.columns, raw);
      assert row.Some? ==> [Blank(t, row.value)] + [] == [] + [Blank(t, row.value)];
    } else {
      SnocRows(codec, t, raws[1..], raw);
      assert (raws + [raw])[0] == raws[0] && (raws + [raw])[1..] == raws[1..] + [raw];
      match (DeserializeColumns(codec, t.columns, raws[0]), DeserializeRows(codec, t, raws[1..]),
             DeserializeColumns(codec, t.columns, raw))
      case (Some(first), Some(rest), Some(last)) =>
        assert [Blank(t, first)] + (rest + [Blank(t, last)]) == [Blank(t, first)] + rest + [Blank(t, last)];
      case _ =>
    }
  }

  lemma UnreadablePrefix(codec: Codec, t: Table, raws: seq<JsonRow>, i: nat)
    requires i <= |raws| && DeserializeRows(codec, t, raws[..i]) == None
    ensures DeserializeRows(codec, t, raws) == None
    decreases |raws| - i
  {
    if i == |raws| {
      assert raws[..i] == raws;
    } else {
      SnocRows(codec, t, raws[..i], raws[i]);
      assert raws[..i + 1] == raws[..i] + [raws[i]];
      UnreadablePrefix(codec, t, raws, i + 1);
    }
  }

  lemma {:induction false} SnocPrepared(t: Table, rows: seq<Row>, row: Row)
    ensures ClearedAll(t, rows + [row]) == ClearedAll(t, rows) + [Cleared(row, SelfRefs(t))]
    ensures DeferredAll(t, rows + [row]) == DeferredAll(t, rows) + Deferred(t, row, SelfRefs(t))
  {
    hide Cleared, Deferred, SelfRefs;
    if rows == [] {
      assert [row][1..] == [];
      assert rows + [row] == [row];
      assert ClearedAll(t, [row][1..]) == [] && DeferredAll(t, [row][1..]) == [];
    } else {
      SnocPrepared(t, rows[1..], row);
      assert (rows + [row])[0] == rows[0] && (rows + [row])[1..] == rows[1..] + [row];
    }
  }

  /** The rows to insert and the updates to run after them; None when a value cannot be read. */
  method PrepareRows(codec: Codec, t: Table, raws: seq<JsonRow>) returns (r: Option<(seq<Row>, seq<Stmt>)>)
    ensures r == match DeserializeRows(codec, t, raws)
                 case None => None
                 case Some(rows) => Some((ClearedAll(t, rows), DeferredAll(t, rows)))
  {
    ghost var done: seq<Row> := [];
    var prepared: seq<Row> := [];
    var deferred: seq<Stmt> := [];
    var i := 0;
    while i < |raws|
      invariant i <= |raws|
      invariant DeserializeRows(codec, t, raws[..i]) == Some(done)
      invariant prepared == ClearedAll(t, done) && deferred == DeferredAll(t, done)
    {
      hide DeserializeColumns, Blank, Cleared, Deferred, ClearedAll, DeferredAll, SelfRefs;
      SnocRows(codec, t, raws[..i], raws[i]);
      assert raws[..i + 1] == raws[..i] + [raws[i]];
      var full := DeserializeColumns(codec, t.columns, raws[i]);
      if full == None {
        UnreadablePrefix(codec, t, raws, i + 1);
        return None;
      }
      var blank := Blank(t, full.value);
      var row, later := ClearSelfRefs(t, blank);
      SnocPrepared(t, done, blank);
      prepared := prepared + [row];
      deferred := deferred + later;
      done := done + [blank];
      i := i + 1;
    }
    assert raws[..i] == raws;
    r := Some((prepared, deferred));
  }

  /** Empties every table: one TRUNCATE on Postgres, which restarts ids, or one DELETE for each, children first. */
  method WipeTables(session: Session) returns (ok: bool)
    modifies session`tables, session`failAfter, session`sequences
    ensures ok ==> session.sequences == if session.isPostgres then map[] else old(session.sequences)
    ensures ok ==>
      RunAll(session.schema, old(session.tables), WipeStatements(session.isPostgres, session.schema)) == Some(session.tables)
    ensures old(session.failAfter) == None ==>
      && session.failAfter == None
      && (ok <==> RunAll(session.schema, old(session.tables), WipeStatements(session.isPostgres, session.schema)).Some?)
  {
    var schema := session.schema;
    if session.isPostgres {
      ok := session.ExecuteAll([DeleteAll(NamesOf(schema))]);
      session.sequences := map[];
      return;
    }
    var k := |schema|;
    while k > 0
      invariant 0 <= k <= |schema|
      invariant RunAll(schema, old(session.tables), WipeInReverse(schema, |schema|))
             == RunAll(schema, session.tables, WipeInReverse(schema, k))
      invariant session.sequences == old(session.sequences)
      invariant old(session.failAfter) == None ==> session.failAfter == None
    {
      hide Legal, Effect;
      ghost var before := session.tables;
      ok := session.Execute(DeleteAll([schema[k - 1].name]));
      assert WipeInReverse(schema, k)[1..] == WipeInReverse(schema, k - 1);
      if !ok {
        return;
      }
      k := k - 1;
    }
    ok := true;
  }

  /** On Postgres, moves a loaded table's id sequence to its largest id; `setval` raises when that is below 1. */
  method ResetSequence(session: Session, t: Table, rows: seq<Row>) returns (ok: bool)
    modifies session`sequences
    ensures var last := if HasColumn(t, "id") then MaxId(rows) else None;
      && (ok <==> !session.isPostgres || last == None || last.value >= 1)
      && (ok ==> session.sequences == if session.isPostgres && last.Some? then old(session.sequences)[t.name := last.value]
                                      else old(session.sequences))
  {
    ok := true;
    if session.isPostgres && HasColumn(t, "id") {
      var last := MaxId(rows);
      if last.Some? {
        ok := last.value >= 1;
        if ok {
          session.sequences := session.sequences[t.name := last.value];
        }
      }
    }
  }

  /** One table: the insert with self-references nulled, the updates that set them, the id sequence. */
  method LoadTable(session: Session, codec: Codec, t: Table, raws: seq<JsonRow>) returns (r: Result<nat, RestoreError>)
    modifies session`tables, session`failAfter, session`sequences
    ensures var rows := DeserializeRows(codec, t, raws);
      && (rows == None ==> r == Err(UnreadableValue))
      && (r.Ok? ==>
            && r.value == |raws|
            && RunAll(session.schema, old(session.tables), InsertAndPatch(t, rows.value)) == Some(session.tables)
            && (session.isPostgres ==> TableSequenceFits(codec, t, raws))
            && session.sequences == (if session.isPostgres then TableSequence(codec, t, raws, old(session.sequences))
                                     else old(session.sequences)))
      && (old(session.failAfter) == None ==>
            && session.failAfter == None
            && (rows.Some? ==>
                  (r.Ok? <==>
                    && RunAll(session.schema, old(session.tables), InsertAndPatch(t, rows.value)).Some?
                    && (session.isPostgres ==> TableSequenceFits(codec, t, raws)))))
  {
    if raws == [] {
      return Ok(0);
    }
    var prepared := PrepareRows(codec, t, raws);
    if prepared == None {
      return Err(UnreadableValue);
    }
    hide RunAll, MaxId, HasColumn, ClearedAll, DeferredAll;
    var (rows, deferred) := prepared.value;
    var ok := session.ExecuteAll([Insert(t.name, rows)] + deferred);
    if !ok {
      return Err(StatementFailed);
    }
    ok := ResetSequence(session, t, rows);
    r := if ok then Ok(|rows|) else Err(StatementFailed);
  }

  /** The row counts a restore reports, for the first n tables. */
  function RowCounts(schema: Schema, n: nat, manifest: Manifest): map<string, nat>
    requires n <= |schema|
  {
    if n == 0 then map[]
    else RowCounts(schema, n - 1, manifest)[schema[n - 1].name := |RawRows(manifest, schema[n - 1].name)|]
  }

  /** What is left of the load after table i, in terms of table i and the rest. */
  lemma LoadStep(codec: Codec, schema: Schema, manifest: Manifest, i: nat, db: Db)
    requires i < |schema|
    ensures var rows := DeserializeRows(codec, schema[i], RawRows(manifest, schema[i].name));
      var here, rest := LoadStatements(codec, schema[i..], manifest), LoadStatements(codec, schema[i + 1..], manifest);
      && (here.Some? <==> rows.Some? && rest.Some?)
      && (here.Some? ==>
            RunAll(schema, db, here.value) ==
              match RunAll(schema, db, InsertAndPatch(schema[i], rows.value))
              case None => None
              case Some(mid) => RunAll(schema, mid, rest.value))
  {
    hide DeserializeRows, InsertAndPatch, RunAll;
    assert schema[i..][0] == schema[i] && schema[i..][1..] == schema[i + 1..];
    var rows := DeserializeRows(codec, schema[i], RawRows(manifest, schema[i].name));
    var rest := LoadStatements(codec, schema[i + 1..], manifest);
    if rows.Some? && rest.Some? {
      RunAllConcat(schema, db, InsertAndPatch(schema[i], rows.value), rest.value);
    }
  }

  lemma LoadEnds(codec: Codec, schema: Schema, manifest: Manifest, db: Db)
    ensures schema[0..] == schema
    ensures LoadStatements(codec, schema[|schema|..], manifest) == Some([]) && RunAll(schema, db, []) == Some(db)
  {
  }

  /** The sequences of the tables from i on are ones `setval` takes. */
  ghost predicate SequencesFitFrom(codec: Codec, schema: Schema, i: nat, manifest: Manifest) {
    forall j :: i <= j < |schema| ==> TableSequenceFits(codec, schema[j], RawRows(manifest, schema[j].name))
  }

  lemma SequencesFitStep(codec: Codec, schema: Schema, i: nat, manifest: Manifest)
    requires i < |schema|
    ensures SequencesFitFrom(codec, schema, i, manifest)
       <==> TableSequenceFits(codec, schema[i], RawRows(manifest, schema[i].name))
            && SequencesFitFrom(codec, schema, i + 1, manifest)
  {
    hide TableSequenceFits;
  }

  method LoadTables(session: Session, codec: Codec, manifest: Manifest) returns (r: Result<map<string, nat>, RestoreError>)
    modifies session`tables, session`failAfter, session`sequences
    ensures var load := LoadStatements(codec, session.schema, manifest);
      && (r.Ok? ==>
            && load.Some?
            && RunAll(session.schema, old(session.tables), load.value) == Some(session.tables)
            && r.value == RowCounts(session.schema, |session.schema|, manifest)
            && (session.isPostgres ==> SequencesFit(codec, session.schema, manifest))
            && session.sequences == if session.isPostgres
                                    then SequencesAfter(codec, session.schema, |session.schema|, manifest,
                                                        old(session.sequences))
                                    else old(session.sequences))
      && (old(session.failAfter) == None ==>
            && session.failAfter == None
            && (r.Ok? <==>
                  && load.Some? && RunAll(session.schema, old(session.tables), load.value).Some?
                  && (session.isPostgres ==> SequencesFit(codec, session.schema, manifest))))
  {
    hide LoadStatements, RunAll, DeserializeRows, InsertAndPatch, TableSequence, TableSequenceFits;
    var schema := session.schema;
    var counts: map<string, nat> := map[];
    var i := 0;
    ghost var all := LoadStatements(codec, schema, manifest);
    LoadEnds(codec, schema, manifest, session.tables);
    while i < |schema|
      invariant i <= |schema|
      invariant counts == RowCounts(schema, i, manifest)
      invariant session.sequences == if session.isPostgres
                                     then SequencesAfter(codec, schema, i, manifest, old(session.sequences))
                                     else old(session.sequences)
      invariant all.Some? <==> LoadStatements(codec, schema[i..], manifest).Some?
      invariant all.Some? ==>
        RunAll(schema, old(session.tables), all.value)
        == RunAll(schema, session.tables, LoadStatements(codec, schema[i..], manifest).value)
      invariant old(session.failAfter) == None ==> session.failAfter == None
      invariant session.isPostgres ==>
        (SequencesFit(codec, schema, manifest) <==> SequencesFitFrom(codec, schema, i, manifest))
    {
      hide SequencesFit, SequencesFitFrom, RowCounts, SequencesAfter;
      LoadStep(codec, schema, manifest, i, session.tables);
      SequencesFitStep(codec, schema, i, manifest);
      CountsStep(codec, schema, i, manifest, old(session.sequences));
      var loaded := LoadTable(session, codec, schema[i], RawRows(manifest, schema[i].name));
      if loaded.Err? {
        return Err(loaded.error);
      }
      counts := counts[schema[i].name := loaded.value];
      i := i + 1;
    }
    LoadEnds(codec, schema, manifest, session.tables);
    r := Ok(counts);
  }

  lemma CountsStep(codec: Codec, schema: Schema, i: nat, manifest: Manifest, start: map<string, int>)
    requires i < |schema|
    ensures RowCounts(schema, i + 1, manifest)
         == RowCounts(schema, i, manifest)[schema[i].name := |RawRows(manifest, schema[i].name)|]
    ensures SequencesAfter(codec, schema, i + 1, manifest, start)
         == TableSequence(codec, schema[i], RawRows(manifest, schema[i].name),
                          SequencesAfter(codec, schema, i, manifest, start))
  {
  }

  /** Rows a blob finds: the update's row count is not zero. */
  function Matched(rows: seq<Row>, blobs: Blobs): nat {
    if blobs == [] then 0
    else (if IdExists(rows, Int(blobs[0].0)) then 1 else 0) + Matched(rows, blobs[1..])
  }

  lemma IdsSurviveAttach(rows: seq<Row>, id: Value, isPostgres: bool, oid: nat, bytes: Bytes, v: Value)
    ensures IdExists(UpdateRows(rows, id, ContentValues(isPostgres, oid, bytes)), v) <==> IdExists(rows, v)
  {
    var next := UpdateRows(rows, id, ContentValues(isPostgres, oid, bytes));
    assert forall k :: 0 <= k < |rows| ==> Cell(next[k], "id") == Cell(rows[k], "id");
    if IdExists(rows, v) {
      var k :| 0 <= k < |rows| && Cell(rows[k], "id") == v;
      assert Cell(next[k], "id") == v;
    }
  }

  lemma {:induction false} MatchedAfterAttach(rows: seq<Row>, id: Value, isPostgres: bool, oid: nat, bytes: Bytes,
                                              blobs: Blobs)
    ensures Matched(UpdateRows(rows, id, ContentValues(isPostgres, oid, bytes)), blobs) == Matched(rows, blobs)
  {
    hide IdExists;
    if blobs != [] {
      IdsSurviveAttach(rows, id, isPostgres, oid, bytes, Int(blobs[0].0));
      MatchedAfterAttach(rows, id, isPostgres, oid, bytes, blobs[1..]);
    }
  }

  /** Writes one blob and points its loot row at it; `found` is a non-zero row count. */
  method AttachBlob(session: Session, lootId: nat, bytes: Bytes) returns (ok: bool, found: bool)
    requires session.conn.Valid()
    modifies session`tables, session`failAfter, session.conn
    ensures session.conn.Valid()
    ensures session.conn.nextOid == old(session.conn.nextOid) + (if session.isPostgres then 1 else 0)
    ensures session.conn.objects == if session.isPostgres then old(session.conn.objects)[old(session.conn.nextOid) := bytes]
                                    else old(session.conn.objects)
    ensures var stmt := UpdateWhereId(LOOT_FILES, Int(lootId),
                                      ContentValues(session.isPostgres, old(session.conn.nextOid), bytes));
      && (ok ==> Exec(session.schema, old(session.tables), stmt) == Some(session.tables))
      && (ok ==> session.isPostgres || Is64Bit(lootId))
      && (old(session.failAfter) == None ==>
            && session.failAfter == None
            && (ok <==> Exec(session.schema, old(session.tables), stmt).Some? && (session.isPostgres || Is64Bit(lootId))))
    ensures found == IdExists(Rows(old(session.tables), LOOT_FILES), Int(lootId))
  {
    hide Legal, IdExists;
    found := IdExists(Rows(session.tables, LOOT_FILES), Int(lootId));
    var values: Row;
    if session.isPostgres {
      var oid := session.conn.WriteRaw(bytes);
      values := map["content_oid" := Int(oid)];
    } else {
      values := map["encrypted_content" := Binary(bytes)];
    }
    assert values == ContentValues(session.isPostgres, old(session.conn.nextOid), bytes);
    if !session.isPostgres && !Is64Bit(lootId) {
      return false, found;
    }
    ok := session.Execute(UpdateWhereId(LOOT_FILES, Int(lootId), values));
  }

  /** The oid of blob i; SQLite uses none. */
  function OidOf(isPostgres: bool, firstOid: nat, i: nat): nat {
    if isPostgres then firstOid + i else firstOid
  }

  lemma OidsStep(isPostgres: bool, firstOid: nat, i: nat)
    ensures OidOf(isPostgres, firstOid, i + 1) == OidOf(isPostgres, firstOid, i) + (if isPostgres then 1 else 0)
    ensures OidOf(isPostgres, OidOf(isPostgres, firstOid, i), 1) == OidOf(isPostgres, firstOid, i + 1)
  {
  }

  lemma OidsGrow(isPostgres: bool, firstOid: nat, i: nat)
    ensures OidOf(isPostgres, firstOid, i) >= firstOid
  {
  }

  lemma AttachEnds(schema: Schema, isPostgres: bool, db: Db, blobs: Blobs, objects: map<nat, Bytes>, oid: nat)
    ensures blobs[0..] == blobs && blobs[|blobs|..] == [] && OidOf(isPostgres, oid, 0) == oid
    ensures AttachStatements(isPostgres, [], oid) == [] && RunAll(schema, db, []) == Some(db)
    ensures ObjectsWith(objects, [], oid) == objects && Matched(Rows(db, LOOT_FILES), []) == 0
  {
  }

  /** On SQLite no statement mentions an oid. */
  lemma {:induction false} OidsUnused(blobs: Blobs, oid: nat, other: nat)
    ensures AttachStatements(false, blobs, oid) == AttachStatements(false, blobs, other)
    decreases |blobs|
  {
    if blobs != [] {
      OidsUnused(blobs[1..], oid + 1, other + 1);
    }
  }

  lemma AttachStep(schema: Schema, isPostgres: bool, db: Db, blobs: Blobs, oid: nat, objects: map<nat, Bytes>)
    requires blobs != []
    ensures var stmt := UpdateWhereId(LOOT_FILES, Int(blobs[0].0), ContentValues(isPostgres, oid, blobs[0].1));
      var next := OidOf(isPostgres, oid, 1);
      RunAll(schema, db, AttachStatements(isPostgres, blobs, oid)) ==
        match Exec(schema, db, stmt)
        case None => None
        case Some(after) => RunAll(schema, after, AttachStatements(isPostgres, blobs[1..], next))
    ensures ObjectsWith(objects, blobs, oid) == ObjectsWith(objects[oid := blobs[0].1], blobs[1..], oid + 1)
    ensures var rows := Rows(db, LOOT_FILES);
      Matched(rows, blobs) == (if IdExists(rows, Int(blobs[0].0)) then 1 else 0) + Matched(rows, blobs[1..])
  {
    hide Exec, IdExists, ContentValues;
    var stmts := AttachStatements(isPostgres, blobs, oid);
    assert stmts[1..] == AttachStatements(isPostgres, blobs[1..], oid + 1);
    if !isPostgres {
      OidsUnused(blobs[1..], oid, oid + 1);
    }
  }

  lemma MatchedKept(schema: Schema, db: Db, id: Value, isPostgres: bool, oid: nat, bytes: Bytes, after: Db, blobs: Blobs)
    requires Exec(schema, db, UpdateWhereId(LOOT_FILES, id, ContentValues(isPostgres, oid, bytes))) == Some(after)
    ensures Matched(Rows(after, LOOT_FILES), blobs) == Matched(Rows(db, LOOT_FILES), blobs)
  {
    hide Legal, Matched, ContentValues;
    MatchedAfterAttach(Rows(db, LOOT_FILES), id, isPostgres, oid, bytes, blobs);
  }

  /** One update for each blob, each with a fresh Large Object on Postgres. */
  method AttachBlobs(session: Session, blobs: Blobs) returns (ok: bool, restored: nat)
    requires session.conn.Valid()
    modifies session`tables, session`failAfter, session.conn
    ensures session.conn.Valid() && old(session.conn.nextOid) <= session.conn.nextOid
    ensures var stmts := AttachStatements(session.isPostgres, blobs, old(session.conn.nextOid));
      && (ok ==>
            && RunAll(session.schema, old(session.tables), stmts) == Some(session.tables)
            && restored == Matched(Rows(session.tables, LOOT_FILES), blobs)
            && IdsBind(session.isPostgres, blobs)
            && session.conn.objects == if session.isPostgres
                                       then ObjectsWith(old(session.conn.objects), blobs, old(session.conn.nextOid))
                                       else old(session.conn.objects))
      && (old(session.failAfter) == None ==>
            && session.failAfter == None
            && (ok <==> RunAll(session.schema, old(session.tables), stmts).Some? && IdsBind(session.isPostgres, blobs)))
  {
    hide Matched, AttachStatements, ObjectsWith, RunAll, OidOf, Exec, IdExists, ContentValues, Is64Bit;
    restored := 0;
    var i := 0;
    ghost var objects := session.conn.objects;
    AttachEnds(session.schema, session.isPostgres, session.tables, blobs, objects, session.conn.nextOid);
    while i < |blobs|
      invariant i <= |blobs| && session.conn.Valid()
      invariant session.conn.nextOid == OidOf(session.isPostgres, old(session.conn.nextOid), i)
      invariant RunAll(session.schema, old(session.tables),
                       AttachStatements(session.isPostgres, blobs, old(session.conn.nextOid)))
             == RunAll(session.schema, session.tables,
                       AttachStatements(session.isPostgres, blobs[i..], session.conn.nextOid))
      invariant Matched(Rows(session.tables, LOOT_FILES), blobs)
             == restored + Matched(Rows(session.tables, LOOT_FILES), blobs[i..])
      invariant session.isPostgres ==>
        ObjectsWith(objects, blobs, old(session.conn.nextOid))
        == ObjectsWith(session.conn.objects, blobs[i..], session.conn.nextOid)
      invariant !session.isPostgres ==> session.conn.objects == objects
      invariant session.isPostgres || forall j :: 0 <= j < i ==> Is64Bit(blobs[j].0)
      invariant old(session.failAfter) == None ==> session.failAfter == None
    {
      var (lootId, bytes) := blobs[i];
      ghost var oid := session.conn.nextOid;
      ghost var before := session.tables;
      ghost var rest := blobs[i + 1..];
      assert blobs[i..][0] == blobs[i] && blobs[i..][1..] == rest;
      AttachStep(session.schema, session.isPostgres, before, blobs[i..], oid, session.conn.objects);
      OidsStep(session.isPostgres, old(session.conn.nextOid), i);
      var found;
      ok, found := AttachBlob(session, lootId, bytes);
      OidsGrow(session.isPostgres, old(session.conn.nextOid), i + 1);
      if !ok {
        return;
      }
      MatchedKept(session.schema, before, Int(lootId), session.isPostgres, oid, bytes, session.tables, rest);
      MatchedKept(session.schema, before, Int(lootId), session.isPostgres, oid, bytes, session.tables, blobs);
      if found {
        restored := restored + 1;
      }
      i := i + 1;
    }
    AttachEnds(session.schema, session.isPostgres, session.tables, blobs, session.conn.objects, session.conn.nextOid);
    OidsGrow(session.isPostgres, old(session.conn.nextOid), i);
    ok := true;
  }

  /**
    Wipes and reloads the whole database from an archive.  Either it commits
    exactly what RestoreOutcome says, or it raises and the database and every
    Large Object are as they were; it never raises without a reason.
   */
  method RestoreFullArchive(session: Session, codec: Codec, zip: Zip) returns (r: Result<Summary, RestoreError>)
    requires session.Clean() && session.conn.Valid()
    modifies session, session.conn
    ensures session.Clean() && session.conn.Valid()
    ensures r.Err? ==> session.tables == old(session.tables) && session.conn.objects == old(session.conn.objects)
    ensures r.Err? ==> session.sequences == old(session.sequences)
    ensures r.Ok? ==>
      && RestoreOutcome(session.isPostgres, codec, session.schema, zip, old(session.tables), old(session.conn.nextOid))
         == Some(session.tables)
      && session.conn.objects == (if session.isPostgres && HasTable(session.schema, LOOT_FILES)
                                  then ObjectsWith(old(session.conn.objects), BlobsIn(zip), old(session.conn.nextOid))
                                  else old(session.conn.objects))
      && ManifestIn(zip).Some?
      && session.sequences == (if session.isPostgres
                               then SequencesAfter(codec, session.schema, |session.schema|, ManifestIn(zip).value, map[])
                               else old(session.sequences))
      && r.value.rowCounts == RowCounts(session.schema, |session.schema|, ManifestIn(zip).value)
      && r.value.lootInArchive == |BlobsIn(zip)|
      && r.value.lootRestored == (if HasTable(session.schema, LOOT_FILES)
                                  then Matched(Rows(session.tables, LOOT_FILES), BlobsIn(zip)) else 0)
    ensures r.Ok? && InUse(session.schema, old(session.tables)) ==>
      && ContentsPlaced(session.isPostgres, Rows(session.tables, LOOT_FILES), session.conn.objects, BlobsIn(zip))
      && CountsRows(session.schema, session.tables, r.value.rowCounts)
      && r.value.lootRestored == |Holders(Rows(session.tables, LOOT_FILES), BlobsIn(zip))|
    ensures old(session.failAfter) == None ==>
      (r.Ok? <==>
        RestoreOutcome(session.isPostgres, codec, session.schema, zip, old(session.tables), old(session.conn.nextOid)).Some?)
  {
    r := RestoreAll(session, codec, zip);
    hide RestoreOutcome, InUse, ContentsPlaced, CountsRows, Holders, RowCounts, Matched, SequencesAfter, ObjectsWith,
         ManifestIn, BlobsIn, HasTable;
    if r.Ok? && old(InUse(session.schema, session.tables)) {
      RestoredIsAsSaid(session.isPostgres, codec, session.schema, zip, old(session.tables), old(session.conn.objects),
                       old(session.conn.nextOid), session.tables);
    }
  }

  /** The transaction of a full restore. */
  method RestoreAll(session: Session, codec: Codec, zip: Zip) returns (r: Result<Summary, RestoreError>)
    requires session.Clean() && session.conn.Valid()
    modifies session, session.conn
    ensures session.Clean() && session.conn.Valid()
    ensures r.Err? ==> session.tables == old(session.tables) && session.conn.objects == old(session.conn.objects)
    ensures r.Err? ==> session.sequences == old(session.sequences)
    ensures r.Ok? ==>
      && RestoreOutcome(session.isPostgres, codec, session.schema, zip, old(session.tables), old(session.conn.nextOid))
         == Some(session.tables)
      && session.conn.objects == (if session.isPostgres && HasTable(session.schema, LOOT_FILES)
                                  then ObjectsWith(old(session.conn.objects), BlobsIn(zip), old(session.conn.nextOid))
                                  else old(session.conn.objects))
      && ManifestIn(zip).Some?
      && session.sequences == (if session.isPostgres
                               then SequencesAfter(codec, session.schema, |session.schema|, ManifestIn(zip).value, map[])
                               else old(session.sequences))
      && r.value.rowCounts == RowCounts(session.schema, |session.schema|, ManifestIn(zip).value)
      && r.value.lootInArchive == |BlobsIn(zip)|
      && r.value.lootRestored == (if HasTable(session.schema, LOOT_FILES)
                                  then Matched(Rows(session.tables, LOOT_FILES), BlobsIn(zip)) else 0)
    ensures old(session.failAfter) == None ==>
      (r.Ok? <==>
        RestoreOutcome(session.isPostgres, codec, session.schema, zip, old(session.tables), old(session.conn.nextOid)).Some?)
  {
    hide RunAll, Plan, SequencesFit, SequencesAfter, RowCounts, Matched, ObjectsWith, IdsBind, HasTable, BlobsIn,
         ManifestIn, NamesReadable, RestoreOutcome;
    var parts := ReadArchive(zip);
    OutcomeIs(session.isPostgres, codec, session.schema, zip, session.tables, session.conn.nextOid);
    if parts.Err? {
      return Err(parts.error);
    }
    r := ApplyArchive(session, codec, parts.value.0, parts.value.1);
    if r.Ok? {
      session.Commit();
    } else {
      session.Rollback();
    }
  }

  /** The application's schema over a database it has kept legal. */
  ghost predicate InUse(schema: Schema, db: Db) {
    WellFormed(schema) && IdsRequired(schema) && Legal(schema, db) && db.Keys == TableNames(schema)
  }

  /** The summary counts every table's rows. */
  ghost predicate CountsRows(schema: Schema, db: Db, counts: map<string, nat>) {
    forall i :: 0 <= i < |schema| ==> schema[i].name in counts && counts[schema[i].name] == |Rows(db, schema[i].name)|
  }

  /** The rows that some blob is filed under. */
  ghost function Holders(rows: seq<Row>, blobs: Blobs): set<nat> {
    set k: nat | k < |rows| && BlobAt(blobs, Cell(rows[k], "id")).Some?
  }

  lemma {:induction false} CountsOf(schema: Schema, n: nat, manifest: Manifest, i: nat)
    requires i < n <= |schema| && forall j, k :: 0 <= j < k < |schema| ==> schema[j].name != schema[k].name
    ensures schema[i].name in RowCounts(schema, n, manifest)
    ensures RowCounts(schema, n, manifest)[schema[i].name] == |RawRows(manifest, schema[i].name)|
  {
    if i < n - 1 {
      CountsOf(schema, n - 1, manifest, i);
      assert schema[n - 1].name != schema[i].name;
    }
  }

  /** With ids that differ, the updates that match a row are as many as the rows a blob is filed under. */
  lemma {:induction false} MatchedAreHolders(rows: seq<Row>, blobs: Blobs)
    requires DistinctIds(blobs) && IdsDiffer(rows)
    ensures Matched(rows, blobs) == |Holders(rows, blobs)|
  {
    if blobs == [] {
      assert Holders(rows, blobs) == {};
    } else {
      assert DistinctIds(blobs[1..]);
      MatchedAreHolders(rows, blobs[1..]);
      OneHolderMore(rows, blobs);
    }
  }

  lemma OneHolderMore(rows: seq<Row>, blobs: Blobs)
    requires DistinctIds(blobs) && IdsDiffer(rows) && blobs != []
    ensures |Holders(rows, blobs)| == |Holders(rows, blobs[1..])| + (if IdExists(rows, Int(blobs[0].0)) then 1 else 0)
  {
    var all, rest := Holders(rows, blobs), Holders(rows, blobs[1..]);
    NotAgain(blobs);
    forall id
      ensures BlobAt(blobs, id).Some? <==> id == Int(blobs[0].0) || BlobAt(blobs[1..], id).Some?
    {
    }
    hide BlobAt, DistinctIds;
    if IdExists(rows, Int(blobs[0].0)) {
      var k: nat :| k < |rows| && Cell(rows[k], "id") == Int(blobs[0].0);
      assert k !in rest;
      assert all == rest + {k};
    } else {
      assert all == rest;
    }
  }

  lemma NotAgain(blobs: Blobs)
    requires DistinctIds(blobs) && blobs != []
    ensures BlobAt(blobs[1..], Int(blobs[0].0)) == None
  {
    forall j | 0 <= j < |blobs[1..]|
      ensures blobs[1..][j].0 != blobs[0].0
    {
      assert blobs[1..][j] == blobs[j + 1];
    }
  }

  /** What a committed restore leaves in the content columns, and that its summary counts what is there. */
  lemma RestoredIsAsSaid(isPostgres: bool, codec: Codec, schema: Schema, zip: Zip, db: Db, objects: map<nat, Bytes>,
                         oid: nat, after: Db)
    requires InUse(schema, db) && RestoreOutcome(isPostgres, codec, schema, zip, db, oid) == Some(after)
    ensures ManifestIn(zip).Some?
    ensures ContentsPlaced(isPostgres, Rows(after, LOOT_FILES),
                           if isPostgres && HasTable(schema, LOOT_FILES) then ObjectsWith(objects, BlobsIn(zip), oid)
                           else objects,
                           BlobsIn(zip))
    ensures CountsRows(schema, after, RowCounts(schema, |schema|, ManifestIn(zip).value))
    ensures (if HasTable(schema, LOOT_FILES) then Matched(Rows(after, LOOT_FILES), BlobsIn(zip)) else 0)
            == |Holders(Rows(after, LOOT_FILES), BlobsIn(zip))|
  {
    RestoredContents(isPostgres, codec, schema, zip, db, objects, oid);
    RestoredRows(isPostgres, codec, schema, zip, db, oid, after);
    assert DistinctIds(BlobsIn(zip)) by { ExtractedFromEntries(zip, |zip|); }
    assert after.Keys == TableNames(schema);
    hide *;
    SummaryIs(isPostgres, schema, after, BlobsIn(zip), objects, oid);
  }

  lemma SummaryIs(isPostgres: bool, schema: Schema, after: Db, blobs: Blobs, objects: map<nat, Bytes>, oid: nat)
    requires DistinctIds(blobs) && IdsDiffer(Rows(after, LOOT_FILES)) && after.Keys == TableNames(schema)
    requires ContentsPlaced(isPostgres, Rows(after, LOOT_FILES), ObjectsWith(objects, blobs, oid), blobs)
    ensures ContentsPlaced(isPostgres, Rows(after, LOOT_FILES),
                           if isPostgres && HasTable(schema, LOOT_FILES) then ObjectsWith(objects, blobs, oid) else objects,
                           blobs)
    ensures (if HasTable(schema, LOOT_FILES) then Matched(Rows(after, LOOT_FILES), blobs) else 0)
            == |Holders(Rows(after, LOOT_FILES), blobs)|
  {
    hide Holders, Matched, BlobAt, ContentsPlaced, ObjectsWith;
    if HasTable(schema, LOOT_FILES) {
      MatchedAreHolders(Rows(after, LOOT_FILES), blobs);
    } else {
      assert LOOT_FILES !in TableNames(schema);
      NoHolders(blobs);
      NoRowsPlaced(isPostgres, objects, blobs);
    }
    if !isPostgres {
      InlineIgnoresObjects(isPostgres, Rows(after, LOOT_FILES), ObjectsWith(objects, blobs, oid), objects, blobs);
    }
  }

  lemma NoRowsPlaced(isPostgres: bool, objects: map<nat, Bytes>, blobs: Blobs)
    ensures ContentsPlaced(isPostgres, [], objects, blobs)
  {
  }

  lemma NoHolders(blobs: Blobs)
    ensures Holders([], blobs) == {}
  {
  }

  lemma InlineIgnoresObjects(isPostgres: bool, rows: seq<Row>, a: map<nat, Bytes>, b: map<nat, Bytes>, blobs: Blobs)
    requires !isPostgres && ContentsPlaced(isPostgres, rows, a, blobs)
    ensures ContentsPlaced(isPostgres, rows, b, blobs)
  {
    hide BlobFor;
    forall k | 0 <= k < |rows|
      ensures Holds(isPostgres, rows[k], b, BlobFor(blobs, Cell(rows[k], "id")))
    {
      assert Holds(isPostgres, rows[k], a, BlobFor(blobs, Cell(rows[k], "id")));
    }
  }

  /** A committed restore leaves as many rows as the archive lists, and loot ids that differ. */
  lemma RestoredRows(isPostgres: bool, codec: Codec, schema: Schema, zip: Zip, db: Db, oid: nat, after: Db)
    requires InUse(schema, db) && RestoreOutcome(isPostgres, codec, schema, zip, db, oid) == Some(after)
    ensures ManifestIn(zip).Some? && after.Keys == TableNames(schema)
    ensures CountsRows(schema, after, RowCounts(schema, |schema|, ManifestIn(zip).value))
    ensures IdsDiffer(Rows(after, LOOT_FILES))
  {
    assert DistinctIds(BlobsIn(zip)) by { ExtractedFromEntries(zip, |zip|); }
    assert forall j, k :: 0 <= j < k < |schema| ==> schema[j].name != schema[k].name;
    OutcomeReads(isPostgres, codec, schema, zip, db, oid);
    var manifest := ManifestIn(zip).value;
    var full := ReadTables(codec, schema, manifest);
    assert WellFormed(schema) && IdsRequired(schema) && Legal(schema, db) && db.Keys == TableNames(schema);
    hide *;
    CommitsIffArchiveLegal(isPostgres, codec, schema, zip, manifest, full, db, oid);
    RowsRead(codec, schema, manifest, full);
    AttachedIds(schema, isPostgres, full, BlobsIn(zip), oid);
    ReadCounts(codec, schema, manifest, full, after);
  }

  lemma ReadCounts(codec: Codec, schema: Schema, manifest: Manifest, full: Db, after: Db)
    requires forall j, k :: 0 <= j < k < |schema| ==> schema[j].name != schema[k].name
    requires Reads(codec, schema, manifest, full) && AgreeOffContents(schema, full, after)
    ensures CountsRows(schema, after, RowCounts(schema, |schema|, manifest))
  {
    hide RowCounts, DeserializeRows;
    forall i | 0 <= i < |schema|
      ensures schema[i].name in RowCounts(schema, |schema|, manifest)
      ensures RowCounts(schema, |schema|, manifest)[schema[i].name] == |Rows(after, schema[i].name)|
    {
      CountsOf(schema, |schema|, manifest, i);
      assert RowsAgree(schema[i].name, Rows(full, schema[i].name), Rows(after, schema[i].name));
    }
  }

  lemma AttachedIds(schema: Schema, isPostgres: bool, full: Db, blobs: Blobs, oid: nat)
    requires DistinctIds(blobs) && IdsDiffer(Rows(full, LOOT_FILES))
    ensures var after := Attached(isPostgres, full, blobs, oid);
      && after.Keys == full.Keys && AgreeOffContents(schema, full, after) && IdsDiffer(Rows(after, LOOT_FILES))
  {
    AttachedAgrees(schema, isPostgres, full, blobs, oid);
    hide AttachRows, AttachedRow, AgreeOffContents;
    if LOOT_FILES in full {
      AttachRowsPointwise(isPostgres, full[LOOT_FILES], blobs, oid);
      var after := AttachRows(isPostgres, full[LOOT_FILES], blobs, oid);
      forall k | 0 <= k < |after|
        ensures Cell(after[k], "id") == Cell(full[LOOT_FILES][k], "id")
      {
        AttachedId(isPostgres, full[LOOT_FILES][k], blobs, oid);
      }
    }
  }

  lemma AttachedId(isPostgres: bool, row: Row, blobs: Blobs, oid: nat)
    ensures Cell(AttachedRow(isPostgres, row, blobs, oid), "id") == Cell(row, "id")
  {
  }

  /** What a full restore takes from the archive, before its transaction. */
  method ReadArchive(zip: Zip) returns (r: Result<(Manifest, Blobs), RestoreError>)
    ensures r.Ok? <==> ManifestIn(zip).Some? && NamesReadable(zip)
    ensures r.Ok? ==> r.value == (ManifestIn(zip).value, BlobsIn(zip))
  {
    hide NamesReadable, BlobsIn, HasEntry, ReadEntry, JsonTables;
    if !HasEntry(zip, EXPORT_NAME) {
      return Err(NoExport);
    }
    var manifest := JsonTables(ReadEntry(zip, EXPORT_NAME));
    if manifest == None {
      return Err(UnreadableExport);
    }
    var blobs := ExtractLootBlobs(zip);
    if blobs.Err? {
      return Err(blobs.error);
    }
    r := Ok((manifest.value, blobs.value));
  }

  /** The outcome in terms of the statements to run. */
  lemma OutcomeIs(isPostgres: bool, codec: Codec, schema: Schema, zip: Zip, db: Db, oid: nat)
    ensures RestoreOutcome(isPostgres, codec, schema, zip, db, oid)
         == if ManifestIn(zip).Some? && NamesReadable(zip)
               && (HasTable(schema, LOOT_FILES) ==> IdsBind(isPostgres, BlobsIn(zip)))
               && (isPostgres ==> SequencesFit(codec, schema, ManifestIn(zip).value))
               && Plan(isPostgres, codec, schema, ManifestIn(zip).value, BlobsIn(zip), oid).Some?
            then RunAll(schema, db, Plan(isPostgres, codec, schema, ManifestIn(zip).value, BlobsIn(zip), oid).value)
            else None
  {
    hide RunAll, Plan, SequencesFit, IdsBind, HasTable, BlobsIn, ManifestIn, NamesReadable;
  }

  /** The statements of a full restore, inside the open transaction. */
  method ApplyArchive(session: Session, codec: Codec, manifest: Manifest, blobs: Blobs)
    returns (r: Result<Summary, RestoreError>)
    requires session.conn.Valid()
    modifies session`tables, session`failAfter, session`sequences, session.conn
    ensures session.conn.Valid() && old(session.conn.nextOid) <= session.conn.nextOid
    ensures r.Ok? ==>
      session.sequences == if session.isPostgres
                           then SequencesAfter(codec, session.schema, |session.schema|, manifest, map[])
                           else old(session.sequences)
    ensures var plan := Plan(session.isPostgres, codec, session.schema, manifest, blobs, old(session.conn.nextOid));
      && (r.Ok? ==>
            && plan.Some? && RunAll(session.schema, old(session.tables), plan.value) == Some(session.tables)
            && (HasTable(session.schema, LOOT_FILES) ==> IdsBind(session.isPostgres, blobs))
            && (session.isPostgres ==> SequencesFit(codec, session.schema, manifest))
            && r.value.rowCounts == RowCounts(session.schema, |session.schema|, manifest)
            && r.value.lootInArchive == |blobs|
            && r.value.lootRestored == (if HasTable(session.schema, LOOT_FILES)
                                        then Matched(Rows(session.tables, LOOT_FILES), blobs) else 0)
            && session.conn.objects == if session.isPostgres && HasTable(session.schema, LOOT_FILES)
                                       then ObjectsWith(old(session.conn.objects), blobs, old(session.conn.nextOid))
                                       else old(session.conn.objects))
      && (old(session.failAfter) == None ==>
            (r.Ok? <==>
              && plan.Some? && RunAll(session.schema, old(session.tables), plan.value).Some?
              && (HasTable(session.schema, LOOT_FILES) ==> IdsBind(session.isPostgres, blobs))
              && (session.isPostgres ==> SequencesFit(codec, session.schema, manifest))))
  {
    hide RunAll, WipeStatements, LoadStatements, AttachStatements, ObjectsWith, RowCounts, HasTable, Matched,
         IdsBind, SequencesFit, SequencesAfter;
    ghost var start := session.tables;
    ghost var wipe := WipeStatements(session.isPostgres, session.schema);
    ghost var load := LoadStatements(codec, session.schema, manifest);
    ghost var attach := if HasTable(session.schema, LOOT_FILES)
                        then AttachStatements(session.isPostgres, blobs, session.conn.nextOid) else [];
    if load.Some? {
      RunAllConcat(session.schema, start, wipe + load.value, attach);
      RunAllConcat(session.schema, start, wipe, load.value);
    }
    var wiped := WipeTables(session);
    if !wiped {
      return Err(StatementFailed);
    }
    var counts := LoadTables(session, codec, manifest);
    if counts.Err? {
      return Err(counts.error);
    }
    var restored := 0;
    if HasTable(session.schema, LOOT_FILES) {
      var attached, n := AttachBlobs(session, blobs);
      if !attached {
        return Err(StatementFailed);
      }
      restored := n;
    } else {
      NothingRuns(session.schema, session.tables);
    }
    r := Ok(Summary(counts.value, restored, |blobs|));
  }

  lemma NothingRuns(schema: Schema, db: Db)
    ensures RunAll(schema, db, []) == Some(db)
  {
  }

  // ---------------------------------------------------------------- loot only

  /** Both content columns, one filled and one cleared. */
  function RestoredContent(isPostgres: bool, oid: nat, bytes: Bytes): Row {
    if isPostgres then map["content_oid" := Int(oid), "encrypted_content" := Null]
    else map["content_oid" := Null, "encrypted_content" := Binary(bytes)]
  }

  /** On Postgres the row's object is none of those there were before. */
  predicate InNewObject(isPostgres: bool, row: Row, was: map<nat, Bytes>) {
    isPostgres ==> Cell(row, "content_oid").Int? && forall o <- was :: Cell(row, "content_oid") != Int(o)
  }

  /**
    Rows whose id is among the blobs hold that blob, on Postgres in a new
    object each; the others, all other columns and the old objects are as before.
   */
  ghost predicate BlobsReattached(isPostgres: bool, was: map<nat, Bytes>, before: seq<Row>, after: seq<Row>,
                                  objects: map<nat, Bytes>, blobs: Blobs)
  {
    && RowsAgree(LOOT_FILES, before, after)
    && (forall o <- was :: o in objects && objects[o] == was[o])
    && (forall k :: 0 <= k < |before| ==> RowReattached(isPostgres, was, before[k], after[k], objects, blobs))
    && (forall p, q :: 0 <= p < q < |before| ==> isPostgres ==> OidsDiffer(before[p], before[q], after[p], after[q], blobs))
  }

  predicate RowReattached(isPostgres: bool, was: map<nat, Bytes>, before: Row, after: Row, objects: map<nat, Bytes>, blobs: Blobs) {
    var blob := BlobFor(blobs, Cell(before, "id"));
    if blob == None then after == before
    else Holds(isPostgres, after, objects, blob) && InNewObject(isPostgres, after, was)
  }

  /** Two rewritten rows of different ids name different objects. */
  predicate OidsDiffer(before1: Row, before2: Row, after1: Row, after2: Row, blobs: Blobs) {
    var id1, id2 := Cell(before1, "id"), Cell(before2, "id");
    id1 != id2 && BlobFor(blobs, id1).Some? && BlobFor(blobs, id2).Some? ==>
      Cell(after1, "content_oid") != Cell(after2, "content_oid")
  }

  lemma NothingReattached(isPostgres: bool, rows: seq<Row>, objects: map<nat, Bytes>)
    ensures BlobsReattached(isPostgres, objects, rows, rows, objects, [])
  {
  }

  /** A blob whose loot row is gone changes nothing. */
  lemma SkipBlob(isPostgres: bool, was: map<nat, Bytes>, before: seq<Row>, after: seq<Row>, objects: map<nat, Bytes>,
                 blobs: Blobs, blob: (nat, Bytes))
    requires BlobsReattached(isPostgres, was, before, after, objects, blobs) && !IdExists(after, Int(blob.0))
    ensures BlobsReattached(isPostgres, was, before, after, objects, blobs + [blob])
  {
    hide Holds, InNewObject, BlobAt;
    forall k | 0 <= k < |before|
      ensures BlobFor(blobs + [blob], Cell(before[k], "id")) == BlobFor(blobs, Cell(before[k], "id"))
    {
      assert Cell(after[k], "id") == Cell(before[k], "id");
      BlobForSnoc(blobs, blob, Cell(before[k], "id"));
    }
    forall k | 0 <= k < |before|
      ensures RowReattached(isPostgres, was, before[k], after[k], objects, blobs + [blob])
    {
      assert RowReattached(isPostgres, was, before[k], after[k], objects, blobs);
    }
    forall p, q | 0 <= p < q < |before| && isPostgres
      ensures OidsDiffer(before[p], before[q], after[p], after[q], blobs + [blob])
    {
      assert OidsDiffer(before[p], before[q], after[p], after[q], blobs);
    }
  }

  lemma BlobForSnoc(blobs: Blobs, blob: (nat, Bytes), id: Value)
    ensures BlobFor(blobs + [blob], id) ==
      if BlobFor(blobs, id).Some? then BlobFor(blobs, id) else if Int(blob.0) == id then Some(blob.1) else None
  {
    BlobAtSnoc(blobs, blob, id);
  }

  lemma {:induction false} BlobAtSnoc(blobs: Blobs, blob: (nat, Bytes), id: Value)
    ensures BlobAt(blobs + [blob], id) ==
      if BlobAt(blobs, id).Some? then BlobAt(blobs, id)
      else if Int(blob.0) == id then Some(|blobs|) else None
  {
    if blobs == [] {
      assert blobs + [blob] == [blob];
      assert [blob][1..] == [];
    } else {
      assert (blobs + [blob])[1..] == blobs[1..] + [blob];
      BlobAtSnoc(blobs[1..], blob, id);
    }
  }

  lemma ReattachRow(isPostgres: bool, row: Row, oid: nat, bytes: Bytes, objects: map<nat, Bytes>)
    requires isPostgres ==> oid in objects && objects[oid] == bytes
    ensures var now := row + RestoredContent(isPostgres, oid, bytes);
      && Holds(isPostgres, now, objects, Some(bytes))
      && (isPostgres ==> Cell(now, "content_oid") == Int(oid))
      && forall c :: c !in CONTENT_COLUMNS ==> Cell(now, c) == Cell(row, c)
  {
  }

  lemma HeldStays(isPostgres: bool, row: Row, objects: map<nat, Bytes>, blob: Option<Bytes>, oid: nat, bytes: Bytes)
    requires Holds(isPostgres, row, objects, blob) && oid !in objects
    ensures Holds(isPostgres, row, objects[oid := bytes], blob)
    ensures Cell(row, "content_oid") != Int(oid)
  {
  }

  /** What one more blob does to one row. */
  lemma ReattachOne(isPostgres: bool, was: map<nat, Bytes>, before: Row, after: Row, objects: map<nat, Bytes>, blobs: Blobs,
                    blob: (nat, Bytes), oid: nat)
    requires RowReattached(isPostgres, was, before, after, objects, blobs) && Cell(after, "id") == Cell(before, "id")
    requires BlobFor(blobs, Int(blob.0)) == None && oid !in objects && oid !in was
    ensures var next := UpdateRow(after, Int(blob.0), RestoredContent(isPostgres, oid, blob.1));
      && RowReattached(isPostgres, was, before, next, if isPostgres then objects[oid := blob.1] else objects, blobs + [blob])
      && (Cell(before, "id") == Int(blob.0) && isPostgres ==> Cell(next, "content_oid") == Int(oid))
      && (Cell(before, "id") != Int(blob.0) ==> next == after)
      && (isPostgres && BlobFor(blobs, Cell(before, "id")).Some? ==> Cell(next, "content_oid") != Int(oid))
      && forall c :: c !in CONTENT_COLUMNS ==> Cell(next, c) == Cell(after, c)
  {
    var id := Cell(before, "id");
    hide BlobFor, RestoredContent, Holds;
    BlobForSnoc(blobs, blob, id);
    ReattachRow(isPostgres, after, oid, blob.1, objects[oid := blob.1]);
    if !isPostgres {
      ReattachRow(isPostgres, after, oid, blob.1, objects);
    }
    if BlobFor(blobs, id).Some? {
      HeldStays(isPostgres, after, objects, BlobFor(blobs, id), oid, blob.1);
    }
  }

  /** Reattaching one more blob, to the row of its id. */
  lemma ReattachBlob(isPostgres: bool, was: map<nat, Bytes>, before: seq<Row>, after: seq<Row>, objects: map<nat, Bytes>,
                     blobs: Blobs, blob: (nat, Bytes), oid: nat)
    requires BlobsReattached(isPostgres, was, before, after, objects, blobs)
    requires BlobAt(blobs, Int(blob.0)) == None && oid !in objects
    ensures BlobsReattached(isPostgres, was, before, UpdateRows(after, Int(blob.0), RestoredContent(isPostgres, oid, blob.1)),
                            if isPostgres then objects[oid := blob.1] else objects, blobs + [blob])
  {
    var next := UpdateRows(after, Int(blob.0), RestoredContent(isPostgres, oid, blob.1));
    assert BlobFor(blobs, Int(blob.0)) == None;
    hide BlobFor, RestoredContent, RowReattached, OidsDiffer, UpdateRow;
    forall k | 0 <= k < |before|
      ensures RowReattached(isPostgres, was, before[k], next[k], if isPostgres then objects[oid := blob.1] else objects,
                            blobs + [blob])
      ensures Cell(before[k], "id") == Int(blob.0) && isPostgres ==> Cell(next[k], "content_oid") == Int(oid)
      ensures Cell(before[k], "id") != Int(blob.0) ==> next[k] == after[k]
      ensures isPostgres && BlobFor(blobs, Cell(before[k], "id")).Some? ==> Cell(next[k], "content_oid") != Int(oid)
      ensures forall c :: c !in CONTENT_COLUMNS ==> Cell(next[k], c) == Cell(before[k], c)
    {
      assert Cell(after[k], "id") == Cell(before[k], "id");
      assert RowReattached(isPostgres, was, before[k], after[k], objects, blobs);
      ReattachOne(isPostgres, was, before[k], after[k], objects, blobs, blob, oid);
    }
    forall p, q | 0 <= p < q < |before| && isPostgres
      ensures OidsDiffer(before[p], before[q], next[p], next[q], blobs + [blob])
    {
      assert OidsDiffer(before[p], before[q], after[p], after[q], blobs);
      PairReattached(before[p], before[q], after[p], after[q], next[p], next[q], blobs, blob, oid);
    }
  }

  lemma PairReattached(before1: Row, before2: Row, after1: Row, after2: Row, next1: Row, next2: Row, blobs: Blobs,
                       blob: (nat, Bytes), oid: nat)
    requires OidsDiffer(before1, before2, after1, after2, blobs)
    requires Cell(before1, "id") == Int(blob.0) ==> Cell(next1, "content_oid") == Int(oid)
    requires Cell(before2, "id") == Int(blob.0) ==> Cell(next2, "content_oid") == Int(oid)
    requires Cell(before1, "id") != Int(blob.0) ==> next1 == after1
    requires Cell(before2, "id") != Int(blob.0) ==> next2 == after2
    requires BlobFor(blobs, Cell(before1, "id")).Some? ==> Cell(next1, "content_oid") != Int(oid)
    requires BlobFor(blobs, Cell(before2, "id")).Some? ==> Cell(next2, "content_oid") != Int(oid)
    ensures OidsDiffer(before1, before2, next1, next2, blobs + [blob])
  {
    BlobForSnoc(blobs, blob, Cell(before1, "id"));
    BlobForSnoc(blobs, blob, Cell(before2, "id"));
    hide BlobFor;
  }

  lemma ReattachLegal(schema: Schema, isPostgres: bool, db: Db, id: Value, oid: nat, bytes: Bytes)
    requires WellFormed(schema) && Legal(schema, db) && LOOT_FILES in db
    ensures Exec(schema, db, UpdateWhereId(LOOT_FILES, id, RestoredContent(isPostgres, oid, bytes))).Some?
  {
    var values := RestoredContent(isPostgres, oid, bytes);
    var next := Effect(db, UpdateWhereId(LOOT_FILES, id, values));
    hide RestoredContent;
    forall i | 0 <= i < |schema|
      ensures RowsAgree(schema[i].name, Rows(db, schema[i].name), Rows(next, schema[i].name))
    {
      if schema[i].name == LOOT_FILES {
        forall k, c | 0 <= k < |db[LOOT_FILES]|
          ensures Cell(db[LOOT_FILES][k], c) == Cell(UpdateRow(db[LOOT_FILES][k], id, values), c) || c in CONTENT_COLUMNS
        {
          if c !in CONTENT_COLUMNS {
            ContentColumnsOnly(isPostgres, oid, bytes, db[LOOT_FILES][k], c);
          }
        }
      }
    }
    AgreeLegal(schema, db, next);
  }

  lemma ContentColumnsOnly(isPostgres: bool, oid: nat, bytes: Bytes, row: Row, c: string)
    requires c !in CONTENT_COLUMNS
    ensures Cell(row + RestoredContent(isPostgres, oid, bytes), c) == Cell(row, c)
  {
  }

  /** Gives one existing loot row the archived bytes. */
  method ReattachTo(session: Session, lootId: nat, bytes: Bytes) returns (ok: bool)
    requires session.conn.Valid()
    requires WellFormed(session.schema) && Legal(session.schema, session.tables) && LOOT_FILES in session.tables
    modifies session`tables, session`failAfter, session.conn
    ensures session.conn.Valid() && old(session.conn.nextOid) <= session.conn.nextOid
    ensures session.conn.objects == if session.isPostgres then old(session.conn.objects)[old(session.conn.nextOid) := bytes]
                                    else old(session.conn.objects)
    ensures ok ==>
      && Legal(session.schema, session.tables)
      && session.tables == old(session.tables)[LOOT_FILES :=
           UpdateRows(old(session.tables[LOOT_FILES]), Int(lootId),
                      RestoredContent(session.isPostgres, old(session.conn.nextOid), bytes))]
    ensures old(session.failAfter) == None ==> session.failAfter == None && ok
  {
    hide Legal, WellFormed, RestoredContent;
    ghost var newOid := session.conn.nextOid;
    ReattachLegal(session.schema, session.isPostgres, session.tables, Int(lootId), newOid, bytes);
    var oid := 0;
    if session.isPostgres {
      oid := session.conn.WriteRaw(bytes);
    }
    SameContent(session.isPostgres, oid, newOid, bytes);
    ok := session.Execute(UpdateWhereId(LOOT_FILES, Int(lootId), RestoredContent(session.isPostgres, oid, bytes)));
  }

  lemma OtherTables(db: Db, rows: seq<Row>, next: seq<Row>)
    ensures db[LOOT_FILES := rows][LOOT_FILES := next] == db[LOOT_FILES := next]
  {
  }

  /** Part way through: the blobs done so far are reattached, and everything else is as before. */
  ghost predicate Reattaching(session: Session, was: map<nat, Bytes>, before: Db, done: Blobs)
    reads session, session.conn
  {
    && session.conn.Valid() && (forall oid :: oid in session.savedObjects ==> oid < session.conn.nextOid)
    && WellFormed(session.schema) && Legal(session.schema, session.tables)
    && LOOT_FILES in before && LOOT_FILES in session.tables
    && session.tables == before[LOOT_FILES := session.tables[LOOT_FILES]]
    && BlobsReattached(session.isPostgres, was, before[LOOT_FILES], session.tables[LOOT_FILES], session.conn.objects, done)
  }

  lemma ReattachedIds(before: seq<Row>, after: seq<Row>, id: Value)
    requires RowsAgree(LOOT_FILES, before, after)
    ensures IdExists(after, id) <==> IdExists(before, id)
  {
    if IdExists(before, id) {
      IdsAgree(LOOT_FILES, before, after, id);
    }
    if IdExists(after, id) {
      var k :| 0 <= k < |after| && Cell(after[k], "id") == id;
      assert Cell(before[k], "id") == id;
    }
  }

  lemma {:induction false} MatchedSnoc(rows: seq<Row>, blobs: Blobs, blob: (nat, Bytes))
    ensures Matched(rows, blobs + [blob]) == Matched(rows, blobs) + (if IdExists(rows, Int(blob.0)) then 1 else 0)
  {
    hide IdExists;
    if blobs == [] {
      assert blobs + [blob] == [blob];
      assert [blob][1..] == [];
    } else {
      assert (blobs + [blob])[1..] == blobs[1..] + [blob];
      MatchedSnoc(rows, blobs[1..], blob);
    }
  }

  /** One blob: skipped when its loot row is gone, reattached otherwise. */
  method RestoreBlob(session: Session, ghost was: map<nat, Bytes>, ghost before: Db, ghost done: Blobs, lootId: nat,
                     bytes: Bytes)
    returns (ok: bool, found: bool)
    requires Reattaching(session, was, before, done) && BlobAt(done, Int(lootId)) == None
    modifies session`tables, session`failAfter, session.conn
    ensures session.conn.Valid() && forall oid :: oid in session.savedObjects ==> oid < session.conn.nextOid
    ensures ok ==> Reattaching(session, was, before, done + [(lootId, bytes)])
    ensures found == IdExists(before[LOOT_FILES], Int(lootId))
    ensures ok ==> session.isPostgres || Is64Bit(lootId)
    ensures old(session.failAfter) == None ==> session.failAfter == None && (ok <==> session.isPostgres || Is64Bit(lootId))
  {
    ReattachedIds(before[LOOT_FILES], session.tables[LOOT_FILES], Int(lootId));
    hide Legal, WellFormed, BlobsReattached, IdExists, RestoredContent, UpdateRows, BlobAt;
    ghost var rows := session.tables[LOOT_FILES];
    ghost var objects := session.conn.objects;
    found := IdExists(session.tables[LOOT_FILES], Int(lootId));
    ok := session.isPostgres || Is64Bit(lootId);
    if !ok {
      return;
    }
    if !found {
      SkipBlob(session.isPostgres, was, before[LOOT_FILES], rows, objects, done, (lootId, bytes));
    } else {
      ghost var oid := session.conn.nextOid;
      ReattachBlob(session.isPostgres, was, before[LOOT_FILES], rows, objects, done, (lootId, bytes), oid);
      OtherTables(before, rows, UpdateRows(rows, Int(lootId), RestoredContent(session.isPostgres, oid, bytes)));
      ok := ReattachTo(session, lootId, bytes);
    }
  }

  /**
    Re-attaches an archive's loot blobs to the rows that still exist.  No other
    table and no other column changes, and on an error nothing changes.
   */
  method RestoreLootOnly(session: Session, zip: Zip) returns (r: Result<(nat, nat), RestoreError>)
    requires session.Clean() && session.conn.Valid()
    requires WellFormed(session.schema) && Legal(session.schema, session.tables) && LOOT_FILES in session.tables
    modifies session, session.conn
    ensures session.Clean() && session.conn.Valid()
    ensures r.Err? ==> session.tables == old(session.tables) && session.conn.objects == old(session.conn.objects)
    ensures session.sequences == old(session.sequences)
    ensures r.Ok? ==>
      && LOOT_FILES in session.tables
      && session.tables == old(session.tables)[LOOT_FILES := session.tables[LOOT_FILES]]
      && BlobsReattached(session.isPostgres, old(session.conn.objects), old(session.tables)[LOOT_FILES],
                         session.tables[LOOT_FILES], session.conn.objects, BlobsIn(zip))
      && r.value.0 == Matched(old(session.tables)[LOOT_FILES], BlobsIn(zip))
      && r.value.0 + r.value.1 == |BlobsIn(zip)|
    ensures old(session.failAfter) == None ==>
      (r.Ok? <==> NamesReadable(zip) && BlobsIn(zip) != [] && IdsBind(session.isPostgres, BlobsIn(zip)))
  {
    var extracted := ExtractLootBlobs(zip);
    if extracted.Err? {
      return Err(extracted.error);
    }
    var blobs := extracted.value;
    if blobs == [] {
      return Err(NoBlobs);
    }
    ExtractedFromEntries(zip, |zip|);
    assert DistinctIds(blobs);
    hide Legal, WellFormed, BlobsReattached, BlobsIn, BlobAt, DistinctIds, NamesReadable, IdsBind, Matched;
    var ok, restored, skipped := ReattachAll(session, blobs);
    if !ok {
      session.Rollback();
      return Err(StatementFailed);
    }
    session.Commit();
    r := Ok((restored, skipped));
  }

  /** The loop over the blobs, inside the open transaction. */
  method ReattachAll(session: Session, blobs: Blobs) returns (ok: bool, restored: nat, skipped: nat)
    requires session.Clean() && session.conn.Valid() && DistinctIds(blobs)
    requires WellFormed(session.schema) && Legal(session.schema, session.tables) && LOOT_FILES in session.tables
    modifies session`tables, session`failAfter, session.conn
    ensures session.conn.Valid() && forall oid :: oid in session.savedObjects ==> oid < session.conn.nextOid
    ensures ok ==>
      && LOOT_FILES in session.tables
      && session.tables == old(session.tables)[LOOT_FILES := session.tables[LOOT_FILES]]
      && BlobsReattached(session.isPostgres, old(session.conn.objects), old(session.tables)[LOOT_FILES],
                         session.tables[LOOT_FILES], session.conn.objects, blobs)
      && restored == Matched(old(session.tables)[LOOT_FILES], blobs)
      && restored + skipped == |blobs|
    ensures ok ==> IdsBind(session.isPostgres, blobs)
    ensures old(session.failAfter) == None ==> (ok <==> IdsBind(session.isPostgres, blobs))
  {
    hide Legal, WellFormed, BlobsReattached, BlobAt, DistinctIds, Is64Bit;
    restored, skipped := 0, 0;
    var i := 0;
    ghost var before := session.tables;
    ghost var was := session.conn.objects;
    NothingReattached(session.isPostgres, before[LOOT_FILES], was);
    assert blobs[..0] == [];
    while i < |blobs|
      invariant i <= |blobs| && restored + skipped == i
      invariant restored == Matched(before[LOOT_FILES], blobs[..i])
      invariant session.isPostgres || forall j :: 0 <= j < i ==> Is64Bit(blobs[j].0)
      invariant Reattaching(session, was, before, blobs[..i])
      invariant old(session.failAfter) == None ==> session.failAfter == None
    {
      hide Reattaching, Matched;
      NotYet(blobs, i);
      MatchedSnoc(before[LOOT_FILES], blobs[..i], blobs[i]);
      assert blobs[..i + 1] == blobs[..i] + [blobs[i]];
      var found;
      ok, found := RestoreBlob(session, was, before, blobs[..i], blobs[i].0, blobs[i].1);
      if !ok {
        return;
      }
      if found {
        restored := restored + 1;
      } else {
        skipped := skipped + 1;
      }
      i := i + 1;
    }
    assert blobs[..i] == blobs;
    ok := true;
  }

  lemma NotYet(blobs: Blobs, i: nat)
    requires DistinctIds(blobs) && i < |blobs|
    ensures BlobAt(blobs[..i], Int(blobs[i].0)) == None
  {
  }

  lemma SameContent(isPostgres: bool, oid: nat, other: nat, bytes: Bytes)
    requires isPostgres ==> oid == other
    ensures RestoredContent(isPostgres, oid, bytes) == RestoredContent(isPostgres, other, bytes)
  {
  }

  // ---------------------------------------------------------------- inspection

  datatype Inspection = Inspection(hasDatabase: bool, hasEngagement: bool, engagementName: Json, lootFileCount: nat,
                                   tableCounts: map<string, nat>, canRestoreFull: bool, canRestoreLootOnly: bool)

  /** The lengths of the members of a JSON entry; None when it is no JSON. */
  function TableCounts(content: Content): Option<map<string, nat>> {
    match content
    case Export(manifest) => Some(map name | name in manifest :: |manifest[name]|)
    case EngagementExport(engagement, lists) =>
      Some((map name | name in lists :: |lists[name]|)["engagement" := |engagement|])
    case Raw(_) => None
  }

  /** `(manifest.get("engagement") or {}).get("name")`; None when it raises. */
  function EngagementName(content: Content): Option<Json> {
    match content
    case Export(manifest) => if RawRows(manifest, "engagement") == [] then Some(JNull) else None
    case EngagementExport(engagement, _) => Some(if "name" in engagement then engagement["name"] else JNull)
    case Raw(_) => None
  }

  /** What an archive offers, before anything is applied; raises at what a restore could not read either. */
  method InspectArchive(zip: Zip) returns (r: Result<Inspection, RestoreError>)
    ensures r.Ok? <==>
      && NamesReadable(zip)
      && (HasEntry(zip, EXPORT_NAME) ==> ManifestIn(zip).Some?)
      && (HasEntry(zip, ENGAGEMENT_MANIFEST) ==> EngagementName(ReadEntry(zip, ENGAGEMENT_MANIFEST)).Some?)
    ensures r.Ok? ==>
      var i := r.value;
      && i.lootFileCount == |BlobsIn(zip)|
      && (i.hasDatabase <==> HasEntry(zip, EXPORT_NAME)) && (i.hasEngagement <==> HasEntry(zip, ENGAGEMENT_MANIFEST))
      && (if i.hasDatabase then Some(i.tableCounts) == TableCounts(ReadEntry(zip, EXPORT_NAME)) else i.tableCounts == map[])
      && (if i.hasEngagement then Some(i.engagementName) == EngagementName(ReadEntry(zip, ENGAGEMENT_MANIFEST))
          else i.engagementName == JNull)
      && (i.canRestoreFull <==> ManifestIn(zip).Some?)
      && (i.canRestoreLootOnly <==>
            !HasEntry(zip, EXPORT_NAME) && !HasEntry(zip, ENGAGEMENT_MANIFEST) && BlobsIn(zip) != [])
  {
    var hasDatabase := HasEntry(zip, EXPORT_NAME);
    var hasEngagement := HasEntry(zip, ENGAGEMENT_MANIFEST);
    hide NamesReadable, BlobsIn, HasEntry, ReadEntry;
    var extracted := ExtractLootBlobs(zip);
    if extracted.Err? {
      return Err(extracted.error);
    }
    var blobs := extracted.value;
    var counts: map<string, nat> := map[];
    if hasDatabase {
      var counted := TableCounts(ReadEntry(zip, EXPORT_NAME));
      if counted == None {
        return Err(UnreadableExport);
      }
      counts := counted.value;
    }
    var name := JNull;
    if hasEngagement {
      var named := EngagementName(ReadEntry(zip, ENGAGEMENT_MANIFEST));
      if named == None {
        return Err(UnreadableExport);
      }
      name := named.value;
    }
    r := Ok(Inspection(hasDatabase, hasEngagement, name, |blobs|, counts, hasDatabase,
                       !hasDatabase && !hasEngagement && blobs != []));
  }
}
