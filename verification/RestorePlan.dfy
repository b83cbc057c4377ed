/**
  A full restore as the list of SQL statements it issues: the wipe in reverse
  dependency order, for each table one insert with self-references left null
  and the updates that patch them, and one update for each loot blob.
 */
module RestorePlan {
  import opened Wrappers
  import opened ByteStrings
  import opened Database
  import opened Archive
  import opened Numerals

  /** Old content references mean nothing in a fresh restore. */
  function Blank(t: Table, row: Row): Row {
    if t.name == LOOT_FILES then row["content_oid" := Null]["encrypted_content" := Null] else row
  }

  /** One archived row as the table's columns see it: missing columns read as null, unknown ones are dropped. */
  function DeserializeColumns(codec: Codec, columns: seq<Column>, raw: JsonRow): Option<Row> {
    if columns == [] then Some(map[])
    else
      var column := columns[0];
      var json := if column.name in raw then raw[column.name] else JNull;
      match (DeserializeValue(codec, json, column.colType), DeserializeColumns(codec, columns[1..], raw))
      case (Some(value), Some(rest)) => Some(map[column.name := value] + rest)
      case _ => None
  }

  function DeserializeRows(codec: Codec, t: Table, raws: seq<JsonRow>): (r: Option<seq<Row>>)
    ensures r.Some? ==> |r.value| == |raws|
  {
    if raws == [] then Some([])
    else
      match (DeserializeColumns(codec, t.columns, raws[0]), DeserializeRows(codec, t, raws[1..]))
      case (Some(row), Some(rest)) => Some([Blank(t, row)] + rest)
      case _ => None
  }

  /** The row as it is inserted: its self-references nulled. */
  function Cleared(row: Row, columns: seq<string>): Row
    decreases |columns|
  {
    if columns == [] then row
    else Cleared(if Cell(row, columns[0]) != Null then row[columns[0] := Null] else row, columns[1..])
  }

  /** The updates that put the nulled self-references of one row back. */
  function Deferred(t: Table, row: Row, columns: seq<string>): seq<Stmt>
    decreases |columns|
  {
    if columns == [] then []
    else
      var c := columns[0];
      if Cell(row, c) == Null then Deferred(t, row, columns[1..])
      else
        [UpdateWhereId(t.name, Cell(row, "id"), map[c := Cell(row, c)])] + Deferred(t, row[c := Null], columns[1..])
  }

  function ClearedAll(t: Table, rows: seq<Row>): (r: seq<Row>)
    ensures |r| == |rows|
    ensures forall k :: 0 <= k < |rows| ==> r[k] == Cleared(rows[k], SelfRefs(t))
  {
    if rows == [] then [] else [Cleared(rows[0], SelfRefs(t))] + ClearedAll(t, rows[1..])
  }

  function DeferredAll(t: Table, rows: seq<Row>): seq<Stmt> {
    if rows == [] then [] else Deferred(t, rows[0], SelfRefs(t)) + DeferredAll(t, rows[1..])
  }

  function InsertAndPatch(t: Table, rows: seq<Row>): seq<Stmt> {
    if rows == [] then [] else [Insert(t.name, ClearedAll(t, rows))] + DeferredAll(t, rows)
  }

  function RawRows(manifest: Manifest, name: string): seq<JsonRow> {
    if name in manifest then manifest[name] else []
  }

  /** The rows every table is going to hold, or None when a value cannot be read. */
  function LoadStatements(codec: Codec, schema: Schema, manifest: Manifest): Option<seq<Stmt>> {
    if |schema| == 0 then Some([])
    else
      match (DeserializeRows(codec, schema[0], RawRows(manifest, schema[0].name)),
             LoadStatements(codec, schema[1..], manifest))
      case (Some(rows), Some(rest)) => Some(InsertAndPatch(schema[0], rows) + rest)
      case _ => None
  }

  /** Tables k-1, ..., 0, children before parents. */
  function WipeInReverse(schema: Schema, k: nat): seq<Stmt>
    requires k <= |schema|
  {
    if k == 0 then [] else [DeleteAll([schema[k - 1].name])] + WipeInReverse(schema, k - 1)
  }

  function NamesOf(schema: Schema): (names: seq<string>)
    ensures |names| == |schema|
    ensures forall i :: 0 <= i < |schema| ==> names[i] == schema[i].name
  {
    seq(|schema|, i requires 0 <= i < |schema| => schema[i].name)
  }

  /** Postgres truncates all tables in one statement. */
  function WipeStatements(isPostgres: bool, schema: Schema): seq<Stmt> {
    if isPostgres then [DeleteAll(NamesOf(schema))] else WipeInReverse(schema, |schema|)
  }

  // ---------------------------------------------------------------- blobs

  /** A Python dict from loot id to bytes, in insertion order. */
  type Blobs = seq<(nat, Bytes)>

  function Put(blobs: Blobs, id: nat, bytes: Bytes): Blobs {
    if blobs == [] then [(id, bytes)]
    else if blobs[0].0 == id then [(id, bytes)] + blobs[1..]
    else [blobs[0]] + Put(blobs[1..], id, bytes)
  }

  /** `_extract_loot_blobs` over the first n names of the archive. */
  function ExtractBlobs(zip: Zip, n: nat): Blobs
    requires n <= |zip|
  {
    if n == 0 then []
    else
      var before := ExtractBlobs(zip, n - 1);
      match LootIdOf(zip[n - 1].name)
      case None => before
      case Some(id) => Put(before, id, EntryBytes(zip, zip[n - 1].name))
  }

  function EntryBytes(zip: Zip, name: string): Bytes
    requires HasEntry(zip, name)
  {
    match ReadEntry(zip, name)
    case Raw(bytes) => bytes
    case _ => []
  }

  function BlobsIn(zip: Zip): Blobs {
    ExtractBlobs(zip, |zip|)
  }

  /** SQLite binds no id beyond 64 bits. */
  predicate IdsBind(isPostgres: bool, blobs: Blobs) {
    isPostgres || forall j :: 0 <= j < |blobs| ==> Is64Bit(blobs[j].0)
  }

  // ---------------------------------------------------------------- id sequences

  /** `SELECT MAX(id)` */
  function MaxId(rows: seq<Row>): (m: Option<int>)
    ensures forall k, n :: 0 <= k < |rows| && Cell(rows[k], "id") == Int(n) ==> m.Some? && n <= m.value
    ensures m.Some? ==> exists k :: 0 <= k < |rows| && Cell(rows[k], "id") == Int(m.value)
  {
    if rows == [] then None
    else
      match (Cell(rows[0], "id"), MaxId(rows[1..]))
      case (Int(n), Some(m)) => Some(if n > m then n else m)
      case (Int(n), None) => Some(n)
      case (_, rest) => rest
  }

  /** The value a table's id sequence is set to after its rows are inserted. */
  function LastId(t: Table, rows: seq<Row>): Option<int> {
    if HasColumn(t, "id") then MaxId(ClearedAll(t, rows)) else None
  }

  /** `setval` refuses anything below 1. */
  predicate SequenceFits(t: Table, rows: seq<Row>) {
    var last := LastId(t, rows);
    last.Some? ==> last.value >= 1
  }

  /** The sequences after the first n tables are loaded, having been `start` before. */
  function SequencesAfter(codec: Codec, schema: Schema, n: nat, manifest: Manifest, start: map<string, int>)
    : map<string, int>
    requires n <= |schema|
  {
    if n == 0 then start
    else
      var before := SequencesAfter(codec, schema, n - 1, manifest, start);
      TableSequence(codec, schema[n - 1], RawRows(manifest, schema[n - 1].name), before)
  }

  function TableSequence(codec: Codec, t: Table, raws: seq<JsonRow>, before: map<string, int>): map<string, int> {
    match DeserializeRows(codec, t, raws)
    case None => before
    case Some(rows) =>
      match LastId(t, rows)
      case None => before
      case Some(last) => before[t.name := last]
  }

  predicate SequencesFit(codec: Codec, schema: Schema, manifest: Manifest) {
    forall i :: 0 <= i < |schema| ==> TableSequenceFits(codec, schema[i], RawRows(manifest, schema[i].name))
  }

  predicate TableSequenceFits(codec: Codec, t: Table, raws: seq<JsonRow>) {
    match DeserializeRows(codec, t, raws) case None => true case Some(rows) => SequenceFits(t, rows)
  }

  /** What attaching blob j sets: a fresh Large Object on Postgres, the bytes themselves on SQLite. */
  function ContentValues(isPostgres: bool, oid: nat, bytes: Bytes): Row {
    if isPostgres then map["content_oid" := Int(oid)] else map["encrypted_content" := Binary(bytes)]
  }

  function AttachStatements(isPostgres: bool, blobs: Blobs, firstOid: nat): seq<Stmt> {
    if blobs == [] then []
    else
      [UpdateWhereId(LOOT_FILES, Int(blobs[0].0), ContentValues(isPostgres, firstOid, blobs[0].1))]
      + AttachStatements(isPostgres, blobs[1..], firstOid + 1)
  }

  predicate HasTable(schema: Schema, name: string) {
    exists i :: 0 <= i < |schema| && schema[i].name == name
  }

  /** Nothing about the archive's loot entries raises: their names are read and their ids are bound. */
  predicate LootApplies(isPostgres: bool, schema: Schema, zip: Zip) {
    NamesReadable(zip) && (HasTable(schema, LOOT_FILES) ==> IdsBind(isPostgres, BlobsIn(zip)))
  }

  /** Every statement of a full restore, in order; None when the archive holds an unreadable value. */
  function Plan(isPostgres: bool, codec: Codec, schema: Schema, manifest: Manifest, blobs: Blobs, firstOid: nat)
    : Option<seq<Stmt>>
  {
    match LoadStatements(codec, schema, manifest)
    case None => None
    case Some(load) =>
      var attach := if HasTable(schema, LOOT_FILES) then AttachStatements(isPostgres, blobs, firstOid) else [];
      Some(WipeStatements(isPostgres, schema) + load + attach)
  }
}
