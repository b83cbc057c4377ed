/** Re-attaching loot blobs: what the last statements of a restore change, and what they cannot break. */
module RestoreContents {
  import opened Wrappers
  import opened ByteStrings
  import opened Database
  import opened Archive
  import opened RestorePlan

  // ---------------------------------------------------------------- content columns are outside every constraint

  ghost predicate RowsAgree(name: string, a: seq<Row>, b: seq<Row>) {
    && |a| == |b|
    && forall k, c {:trigger Cell(a[k], c)} {:trigger Cell(b[k], c)} :: 0 <= k < |a| ==>
         Cell(a[k], c) == Cell(b[k], c) || (name == LOOT_FILES && c in CONTENT_COLUMNS)
  }

  /** Two stores that differ at most in the contents of loot files. */
  ghost predicate AgreeOffContents(schema: Schema, a: Db, b: Db) {
    forall i :: 0 <= i < |schema| ==> RowsAgree(schema[i].name, Rows(a, schema[i].name), Rows(b, schema[i].name))
  }

  lemma IdsAgree(name: string, a: seq<Row>, b: seq<Row>, id: Value)
    requires RowsAgree(name, a, b) && IdExists(a, id)
    ensures IdExists(b, id)
  {
    var k :| 0 <= k < |a| && Cell(a[k], "id") == id;
    assert Cell(b[k], "id") == id;
  }

  lemma AgreeTableLegal(schema: Schema, i: nat, a: Db, b: Db)
    requires WellFormed(schema) && i < |schema| && AgreeOffContents(schema, a, b) && TableLegal(a, schema[i])
    ensures TableLegal(b, schema[i])
  {
    var t := schema[i];
    var ra, rb := Rows(a, t.name), Rows(b, t.name);
    assert RowsAgree(t.name, ra, rb) && TableWellFormed(schema, i);
    forall r, k | 0 <= r < |rb| && 0 <= k < |t.foreignKeys|
      ensures RefHolds(b, rb[r], t.foreignKeys[k])
    {
      var fk := t.foreignKeys[k];
      assert RefHolds(a, ra[r], fk);
      assert Cell(ra[r], fk.column) == Cell(rb[r], fk.column) by {
        assert IsForeignKeyColumn(t, fk.column);
      }
      if Cell(rb[r], fk.column) != Null {
        var p := if IsSelfRef(t, fk) then i else var p :| 0 <= p < i && schema[p].name == fk.target; p;
        assert RowsAgree(schema[p].name, Rows(a, schema[p].name), Rows(b, schema[p].name));
        IdsAgree(fk.target, Rows(a, fk.target), Rows(b, fk.target), Cell(rb[r], fk.column));
      }
    }
    forall r, c | 0 <= r < |rb| && 0 <= c < |t.columns| && !t.columns[c].nullable
      ensures Cell(rb[r], t.columns[c].name) != Null
    {
      assert Cell(ra[r], t.columns[c].name) != Null;
    }
    forall r, s | HasColumn(t, "id") && 0 <= r < s < |rb|
      ensures Cell(rb[r], "id") != Cell(rb[s], "id")
    {
      assert Cell(ra[r], "id") == Cell(rb[r], "id") && Cell(ra[s], "id") == Cell(rb[s], "id");
    }
    AgreeRowsLegal(schema, i, ra, rb);
  }

  /** No UNIQUE key and no row check looks at loot contents. */
  lemma AgreeRowsLegal(schema: Schema, i: nat, a: seq<Row>, b: seq<Row>)
    requires i < |schema| && TableWellFormed(schema, i) && RowsAgree(schema[i].name, a, b)
    requires KeysUnique(schema[i], a) && RowsAccepted(schema[i], a)
    ensures KeysUnique(schema[i], b) && RowsAccepted(schema[i], b)
  {
    var t := schema[i];
    forall u | 0 <= u < |t.uniques|
      ensures KeyUnique(b, t.uniques[u])
    {
      forall k | 0 <= k < |b|
        ensures KeyOf(b[k], t.uniques[u]) == KeyOf(a[k], t.uniques[u])
      {
        forall c | c in t.uniques[u]
          ensures Cell(a[k], c) == Cell(b[k], c)
        {
          assert c !in FreeColumns(t);
        }
      }
    }
    forall k | 0 <= k < |b|
      ensures t.accepts(b[k])
    {
      assert Relaxed(t, b[k], a[k]);
    }
  }

  lemma AgreeLegal(schema: Schema, a: Db, b: Db)
    requires WellFormed(schema) && AgreeOffContents(schema, a, b)
    ensures Legal(schema, a) <==> Legal(schema, b)
  {
    assert AgreeOffContents(schema, b, a) by {
      forall i | 0 <= i < |schema|
        ensures RowsAgree(schema[i].name, Rows(b, schema[i].name), Rows(a, schema[i].name))
      {
        assert RowsAgree(schema[i].name, Rows(a, schema[i].name), Rows(b, schema[i].name));
      }
    }
    if Legal(schema, a) {
      forall i | 0 <= i < |schema| ensures TableLegal(b, schema[i]) { AgreeTableLegal(schema, i, a, b); }
    }
    if Legal(schema, b) {
      forall i | 0 <= i < |schema| ensures TableLegal(a, schema[i]) { AgreeTableLegal(schema, i, b, a); }
    }
  }

  // ---------------------------------------------------------------- attaching

  function AttachRows(isPostgres: bool, rows: seq<Row>, blobs: Blobs, oid: nat): seq<Row>
    decreases |blobs|
  {
    if blobs == [] then rows
    else
      AttachRows(isPostgres, UpdateRows(rows, Int(blobs[0].0), ContentValues(isPostgres, oid, blobs[0].1)),
                 blobs[1..], oid + 1)
  }

  function Attached(isPostgres: bool, db: Db, blobs: Blobs, oid: nat): Db {
    if LOOT_FILES in db then db[LOOT_FILES := AttachRows(isPostgres, db[LOOT_FILES], blobs, oid)] else db
  }

  /** The Large Objects once every blob has been written under the next free oid. */
  function ObjectsWith(objects: map<nat, Bytes>, blobs: Blobs, oid: nat): map<nat, Bytes>
    decreases |blobs|
  {
    if blobs == [] then objects else ObjectsWith(objects[oid := blobs[0].1], blobs[1..], oid + 1)
  }

  lemma {:induction false} ObjectsWithKeeps(objects: map<nat, Bytes>, blobs: Blobs, oid: nat, o: nat)
    requires o in objects && o < oid
    ensures o in ObjectsWith(objects, blobs, oid) && ObjectsWith(objects, blobs, oid)[o] == objects[o]
    decreases |blobs|
  {
    if blobs != [] {
      ObjectsWithKeeps(objects[oid := blobs[0].1], blobs[1..], oid + 1, o);
    }
  }

  lemma {:induction false} ObjectsWithHolds(objects: map<nat, Bytes>, blobs: Blobs, oid: nat, j: nat)
    requires j < |blobs|
    ensures oid + j in ObjectsWith(objects, blobs, oid) && ObjectsWith(objects, blobs, oid)[oid + j] == blobs[j].1
    decreases |blobs|
  {
    var next := objects[oid := blobs[0].1];
    if j == 0 {
      ObjectsWithKeeps(next, blobs[1..], oid + 1, oid);
    } else {
      ObjectsWithHolds(next, blobs[1..], oid + 1, j - 1);
    }
  }

  lemma AttachOneAgrees(schema: Schema, isPostgres: bool, db: Db, id: Value, oid: nat, bytes: Bytes)
    requires LOOT_FILES in db
    ensures AgreeOffContents(schema, db, Effect(db, UpdateWhereId(LOOT_FILES, id, ContentValues(isPostgres, oid, bytes))))
  {
    var values := ContentValues(isPostgres, oid, bytes);
    var next := Effect(db, UpdateWhereId(LOOT_FILES, id, values));
    forall i | 0 <= i < |schema|
      ensures RowsAgree(schema[i].name, Rows(db, schema[i].name), Rows(next, schema[i].name))
    {
      if schema[i].name == LOOT_FILES {
        var rows := db[LOOT_FILES];
        forall k, c | 0 <= k < |rows|
          ensures Cell(rows[k], c) == Cell(UpdateRow(rows[k], id, values), c) || c in CONTENT_COLUMNS
        {
        }
      }
    }
  }

  /** Attaching blobs never violates a constraint. */
  lemma {:induction false} AttachRuns(schema: Schema, isPostgres: bool, db: Db, blobs: Blobs, oid: nat)
    requires WellFormed(schema) && Legal(schema, db) && LOOT_FILES in db
    ensures RunAll(schema, db, AttachStatements(isPostgres, blobs, oid)) == Some(Attached(isPostgres, db, blobs, oid))
    decreases |blobs|
  {
    if blobs == [] {
      assert db[LOOT_FILES := db[LOOT_FILES]] == db;
    } else {
      var values := ContentValues(isPostgres, oid, blobs[0].1);
      var next := Effect(db, UpdateWhereId(LOOT_FILES, Int(blobs[0].0), values));
      AttachOneAgrees(schema, isPostgres, db, Int(blobs[0].0), oid, blobs[0].1);
      AgreeLegal(schema, db, next);
      AttachRuns(schema, isPostgres, next, blobs[1..], oid + 1);
      var rest := AttachStatements(isPostgres, blobs[1..], oid + 1);
      assert AttachStatements(isPostgres, blobs, oid)[1..] == rest;
      var last := AttachRows(isPostgres, next[LOOT_FILES], blobs[1..], oid + 1);
      assert next[LOOT_FILES := last] == db[LOOT_FILES := last];
    }
  }

  // ---------------------------------------------------------------- what a row ends up with

  ghost predicate DistinctIds(blobs: Blobs) {
    forall i, j :: 0 <= i < j < |blobs| ==> blobs[i].0 != blobs[j].0
  }

  /** The position of a loot id among the blobs. */
  function BlobAt(blobs: Blobs, id: Value): (r: Option<nat>)
    ensures r.Some? ==> r.value < |blobs| && Int(blobs[r.value].0) == id
    ensures r.None? ==> forall j :: 0 <= j < |blobs| ==> Int(blobs[j].0) != id
  {
    if blobs == [] then None
    else if Int(blobs[0].0) == id then Some(0)
    else match BlobAt(blobs[1..], id) case None => None case Some(j) => Some(j + 1)
  }

  function AttachedRow(isPostgres: bool, row: Row, blobs: Blobs, oid: nat): Row {
    match BlobAt(blobs, Cell(row, "id"))
    case None => row
    case Some(j) => row + ContentValues(isPostgres, oid + j, blobs[j].1)
  }

  lemma AttachedRowStep(isPostgres: bool, row: Row, blobs: Blobs, oid: nat)
    requires DistinctIds(blobs) && blobs != []
    ensures var next := UpdateRow(row, Int(blobs[0].0), ContentValues(isPostgres, oid, blobs[0].1));
      AttachedRow(isPostgres, next, blobs[1..], oid + 1) == AttachedRow(isPostgres, row, blobs, oid)
  {
    var rest := blobs[1..];
    forall j | 0 <= j < |rest|
      ensures rest[j].0 != blobs[0].0
    {
      assert rest[j] == blobs[j + 1];
    }
  }

  lemma {:induction false} AttachRowsPointwise(isPostgres: bool, rows: seq<Row>, blobs: Blobs, oid: nat)
    requires DistinctIds(blobs)
    ensures |AttachRows(isPostgres, rows, blobs, oid)| == |rows|
    ensures forall k :: 0 <= k < |rows| ==>
      AttachRows(isPostgres, rows, blobs, oid)[k] == AttachedRow(isPostgres, rows[k], blobs, oid)
    decreases |blobs|
  {
    if blobs != [] {
      var next := UpdateRows(rows, Int(blobs[0].0), ContentValues(isPostgres, oid, blobs[0].1));
      AttachRowsPointwise(isPostgres, next, blobs[1..], oid + 1);
      forall k | 0 <= k < |rows|
        ensures AttachedRow(isPostgres, next[k], blobs[1..], oid + 1) == AttachedRow(isPostgres, rows[k], blobs, oid)
      {
        AttachedRowStep(isPostgres, rows[k], blobs, oid);
      }
    }
  }

  // ---------------------------------------------------------------- the two content columns

  /**
    A loot row's content columns as a restore leaves them: on Postgres the oid
    of a Large Object with the bytes, on SQLite the bytes; nothing else, and
    nothing at all without a blob.
   */
  predicate Holds(isPostgres: bool, row: Row, objects: map<nat, Bytes>, blob: Option<Bytes>) {
    var oid, inline := Cell(row, "content_oid"), Cell(row, "encrypted_content");
    match blob
    case None => oid == Null && inline == Null
    case Some(bytes) =>
      if isPostgres then oid.Int? && oid.n >= 0 && oid.n in objects && objects[oid.n] == bytes && inline == Null
      else oid == Null && inline == Binary(bytes)
  }

  /** No two rows name the same Large Object. */
  predicate ObjectsDiffer(rows: seq<Row>) {
    forall p, q :: 0 <= p < q < |rows| ==>
      Cell(rows[p], "content_oid") == Null || Cell(rows[p], "content_oid") != Cell(rows[q], "content_oid")
  }

  /** The blob filed under an id. */
  function BlobFor(blobs: Blobs, id: Value): Option<Bytes> {
    match BlobAt(blobs, id) case None => None case Some(j) => Some(blobs[j].1)
  }

  /** Every row holds the blob filed under its id, each in an object of its own. */
  predicate ContentsPlaced(isPostgres: bool, rows: seq<Row>, objects: map<nat, Bytes>, blobs: Blobs) {
    && (forall k :: 0 <= k < |rows| ==> Holds(isPostgres, rows[k], objects, BlobFor(blobs, Cell(rows[k], "id"))))
    && ObjectsDiffer(rows)
  }

  lemma AttachedHolds(isPostgres: bool, row: Row, blobs: Blobs, objects: map<nat, Bytes>, oid: nat)
    requires Cell(row, "content_oid") == Null && Cell(row, "encrypted_content") == Null
    ensures var now := AttachedRow(isPostgres, row, blobs, oid); var at := BlobAt(blobs, Cell(row, "id"));
      && Holds(isPostgres, now, ObjectsWith(objects, blobs, oid), BlobFor(blobs, Cell(row, "id")))
      && Cell(now, "id") == Cell(row, "id")
      && Cell(now, "content_oid") == if isPostgres && at.Some? then Int(oid + at.value) else Null
  {
    match BlobAt(blobs, Cell(row, "id"))
    case None =>
    case Some(j) => ObjectsWithHolds(objects, blobs, oid, j);
  }

  /** Rows whose contents were null hold, once the blobs are attached, what is filed under their ids. */
  lemma AttachedContents(isPostgres: bool, rows: seq<Row>, blobs: Blobs, objects: map<nat, Bytes>, oid: nat)
    requires DistinctIds(blobs)
    requires forall p, q :: 0 <= p < q < |rows| ==> Cell(rows[p], "id") != Cell(rows[q], "id")
    requires forall k :: 0 <= k < |rows| ==>
      Cell(rows[k], "content_oid") == Null && Cell(rows[k], "encrypted_content") == Null
    ensures var after := AttachRows(isPostgres, rows, blobs, oid);
      && |after| == |rows|
      && (forall k :: 0 <= k < |rows| ==> Cell(after[k], "id") == Cell(rows[k], "id"))
      && ContentsPlaced(isPostgres, after, ObjectsWith(objects, blobs, oid), blobs)
  {
    AttachRowsPointwise(isPostgres, rows, blobs, oid);
    var after := AttachRows(isPostgres, rows, blobs, oid);
    EachHolds(isPostgres, rows, after, blobs, objects, oid);
    OidsByPosition(isPostgres, after, blobs, oid);
    hide AttachedRow, AttachRows, ObjectsWith, Holds, BlobFor, BlobAt, ObjectsDiffer, Cell;
  }

  lemma EachHolds(isPostgres: bool, rows: seq<Row>, after: seq<Row>, blobs: Blobs, objects: map<nat, Bytes>, oid: nat)
    requires |after| == |rows| && forall k :: 0 <= k < |rows| ==> after[k] == AttachedRow(isPostgres, rows[k], blobs, oid)
    requires forall k :: 0 <= k < |rows| ==>
      Cell(rows[k], "content_oid") == Null && Cell(rows[k], "encrypted_content") == Null
    ensures forall k :: 0 <= k < |rows| ==>
      && Cell(after[k], "id") == Cell(rows[k], "id")
      && Holds(isPostgres, after[k], ObjectsWith(objects, blobs, oid), BlobFor(blobs, Cell(after[k], "id")))
    ensures forall k :: 0 <= k < |rows| ==>
      var at := BlobAt(blobs, Cell(after[k], "id"));
      Cell(after[k], "content_oid") == if isPostgres && at.Some? then Int(oid + at.value) else Null
  {
    hide AttachedRow, ObjectsWith, Holds, BlobFor, BlobAt;
    forall k | 0 <= k < |rows|
      ensures Cell(after[k], "id") == Cell(rows[k], "id")
      ensures Holds(isPostgres, after[k], ObjectsWith(objects, blobs, oid), BlobFor(blobs, Cell(after[k], "id")))
      ensures var at := BlobAt(blobs, Cell(after[k], "id"));
        Cell(after[k], "content_oid") == if isPostgres && at.Some? then Int(oid + at.value) else Null
    {
      AttachedHolds(isPostgres, rows[k], blobs, objects, oid);
    }
  }

  /** Rows of different ids whose oids tell the position of their blob have different oids. */
  lemma OidsByPosition(isPostgres: bool, rows: seq<Row>, blobs: Blobs, oid: nat)
    requires forall p, q :: 0 <= p < q < |rows| ==> Cell(rows[p], "id") != Cell(rows[q], "id")
    requires forall k :: 0 <= k < |rows| ==>
      var at := BlobAt(blobs, Cell(rows[k], "id"));
      Cell(rows[k], "content_oid") == if isPostgres && at.Some? then Int(oid + at.value) else Null
    ensures ObjectsDiffer(rows)
  {
    forall p, q | 0 <= p < q < |rows| && Cell(rows[p], "content_oid") != Null
      ensures Cell(rows[p], "content_oid") != Cell(rows[q], "content_oid")
    {
      PositionsDiffer(blobs, Cell(rows[p], "id"), Cell(rows[q], "id"));
    }
  }

  lemma PositionsDiffer(blobs: Blobs, a: Value, b: Value)
    requires a != b
    ensures BlobAt(blobs, a).Some? ==> BlobAt(blobs, a) != BlobAt(blobs, b)
  {
  }

  /** Reading a row back finds the blob it holds. */
  lemma HeldBlobIsRead(isPostgres: bool, row: Row, objects: map<nat, Bytes>, blob: Option<Bytes>)
    requires Holds(isPostgres, row, objects, blob)
    ensures LootBlob(row, objects) == blob
  {
  }

  lemma {:induction false} PutDistinct(blobs: Blobs, id: nat, bytes: Bytes)
    requires DistinctIds(blobs)
    ensures DistinctIds(Put(blobs, id, bytes))
    ensures forall b :: b in Put(blobs, id, bytes) ==> b == (id, bytes) || b in blobs
    ensures BlobAt(blobs, Int(id)) == None ==> Put(blobs, id, bytes) == blobs + [(id, bytes)]
  {
    if blobs == [] {
    } else if blobs[0].0 == id {
    } else {
      var rest := Put(blobs[1..], id, bytes);
      PutDistinct(blobs[1..], id, bytes);
      forall j | 0 <= j < |rest|
        ensures rest[j].0 != blobs[0].0
      {
        assert rest[j] in rest;
        if rest[j] in blobs[1..] {
          var m :| 0 <= m < |blobs[1..]| && blobs[1..][m] == rest[j];
          assert blobs[m + 1].0 != blobs[0].0;
        }
      }
    }
  }

  /** The extracted ids are distinct, and each blob was read from an entry filed under its id. */
  lemma {:induction false} ExtractedFromEntries(zip: Zip, n: nat)
    requires n <= |zip|
    ensures DistinctIds(ExtractBlobs(zip, n))
    ensures forall b :: b in ExtractBlobs(zip, n) ==> FromEntry(zip, b)
  {
    hide LootIdOf;
    if n > 0 {
      ExtractedFromEntries(zip, n - 1);
      match LootIdOf(zip[n - 1].name)
      case None =>
      case Some(id) =>
        var bytes := EntryBytes(zip, zip[n - 1].name);
        PutDistinct(ExtractBlobs(zip, n - 1), id, bytes);
        assert FromEntry(zip, (id, bytes));
    }
  }

  ghost predicate FromEntry(zip: Zip, blob: (nat, Bytes)) {
    exists i :: 0 <= i < |zip| && LootIdOf(zip[i].name) == Some(blob.0) && EntryBytes(zip, zip[i].name) == blob.1
  }
}
