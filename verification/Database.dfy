/**
  A relational store: tables of rows, a schema with foreign keys listed parents
  before children, and SQL statements that the engine refuses when they would
  leave a constraint broken.
 */
module Database {
  import opened Wrappers
  import opened ByteStrings

  datatype ColType = IntCol | TextCol | BoolCol | BinaryCol | DateTimeCol | DateCol

  datatype Column = Column(name: string, colType: ColType, nullable: bool)

  /** Every foreign key of the vault references the target's "id". */
  datatype ForeignKey = ForeignKey(column: string, target: string)

  /**
    A table with its keys.  uniques lists the column lists of its UNIQUE
    constraints and composite primary keys; accepts is everything the engine
    decides on one row alone: CHECK constraints, value types and column widths.
   */
  datatype Table = Table(name: string, columns: seq<Column>, foreignKeys: seq<ForeignKey>,
                         uniques: seq<seq<string>>, accepts: Row -> bool)

  /** `metadata.sorted_tables` */
  type Schema = seq<Table>

  datatype Value = Null | Int(n: int) | Text(s: string) | Bool(b: bool) | Binary(bytes: Bytes)
                 | DateTime(instant: int) | Date(day: int)

  type Row = map<string, Value>

  type Db = map<string, seq<Row>>

  const LOOT_FILES := "loot_files"
  const CONTENT_COLUMNS := {"content_oid", "encrypted_content"}

  function Cell(row: Row, column: string): Value {
    if column in row then row[column] else Null
  }

  function Rows(db: Db, table: string): seq<Row> {
    if table in db then db[table] else []
  }

  // ---------------------------------------------------------------- constraints

  predicate HasColumn(t: Table, name: string) {
    exists i :: 0 <= i < |t.columns| && t.columns[i].name == name
  }

  predicate IdExists(rows: seq<Row>, id: Value) {
    exists i :: 0 <= i < |rows| && Cell(rows[i], "id") == id
  }

  predicate RefHolds(db: Db, row: Row, fk: ForeignKey) {
    Cell(row, fk.column) == Null || IdExists(Rows(db, fk.target), Cell(row, fk.column))
  }

  /** No row of t holds a reference to a row that is not there. */
  predicate RefsHold(db: Db, t: Table) {
    var rows := Rows(db, t.name);
    forall i, k :: 0 <= i < |rows| && 0 <= k < |t.foreignKeys| ==> RefHolds(db, rows[i], t.foreignKeys[k])
  }

  predicate NotNullHolds(t: Table, rows: seq<Row>) {
    forall i, c :: 0 <= i < |rows| && 0 <= c < |t.columns| && !t.columns[c].nullable ==>
      Cell(rows[i], t.columns[c].name) != Null
  }

  predicate IdsUnique(t: Table, rows: seq<Row>) {
    HasColumn(t, "id") ==>
      forall i, j :: 0 <= i < j < |rows| ==> Cell(rows[i], "id") != Cell(rows[j], "id")
  }

  function KeyOf(row: Row, columns: seq<string>): (key: seq<Value>)
    ensures |key| == |columns|
    ensures forall c :: 0 <= c < |columns| ==> key[c] == Cell(row, columns[c])
  {
    seq(|columns|, c requires 0 <= c < |columns| => Cell(row, columns[c]))
  }

  /** A UNIQUE constraint; a key with a null in it clashes with nothing. */
  predicate KeyUnique(rows: seq<Row>, columns: seq<string>) {
    forall i, j {:trigger KeyOf(rows[i], columns), KeyOf(rows[j], columns)} :: 0 <= i < j < |rows| ==>
      Null in KeyOf(rows[i], columns) || KeyOf(rows[i], columns) != KeyOf(rows[j], columns)
  }

  predicate KeysUnique(t: Table, rows: seq<Row>) {
    forall u :: 0 <= u < |t.uniques| ==> KeyUnique(rows, t.uniques[u])
  }

  predicate RowsAccepted(t: Table, rows: seq<Row>) {
    forall i :: 0 <= i < |rows| ==> t.accepts(rows[i])
  }

  predicate TableLegal(db: Db, t: Table) {
    var rows := Rows(db, t.name);
    RefsHold(db, t) && NotNullHolds(t, rows) && IdsUnique(t, rows) && KeysUnique(t, rows) && RowsAccepted(t, rows)
  }

  predicate Legal(schema: Schema, db: Db) {
    forall i :: 0 <= i < |schema| ==> TableLegal(db, schema[i])
  }

  // ---------------------------------------------------------------- statements

  datatype Stmt =
    | DeleteAll(tables: seq<string>)
    | Insert(table: string, rows: seq<Row>)
    | UpdateWhereId(table: string, id: Value, values: Row)

  function UpdateRow(row: Row, id: Value, values: Row): Row {
    if id != Null && Cell(row, "id") == id then row + values else row
  }

  function UpdateRows(rows: seq<Row>, id: Value, values: Row): (r: seq<Row>)
    ensures |r| == |rows|
    ensures forall k :: 0 <= k < |rows| ==> r[k] == UpdateRow(rows[k], id, values)
  {
    if rows == [] then [] else [UpdateRow(rows[0], id, values)] + UpdateRows(rows[1..], id, values)
  }

  function Effect(db: Db, stmt: Stmt): Db {
    match stmt
    case DeleteAll(tables) => map name | name in db :: if name in tables then [] else db[name]
    case Insert(table, rows) => db[table := Rows(db, table) + rows]
    case UpdateWhereId(table, id, values) => db[table := UpdateRows(Rows(db, table), id, values)]
  }

  /** One statement; None is an integrity error, which leaves the tables as they were. */
  function Exec(schema: Schema, db: Db, stmt: Stmt): Option<Db> {
    var next := Effect(db, stmt);
    if Legal(schema, next) then Some(next) else None
  }

  function RunAll(schema: Schema, db: Db, stmts: seq<Stmt>): Option<Db>
    decreases |stmts|
  {
    if stmts == [] then Some(db)
    else
      match Exec(schema, db, stmts[0])
      case None => None
      case Some(next) => RunAll(schema, next, stmts[1..])
  }

  lemma {:induction false} RunAllConcat(schema: Schema, db: Db, a: seq<Stmt>, b: seq<Stmt>)
    ensures RunAll(schema, db, a + b) ==
      match RunAll(schema, db, a)
      case None => None
      case Some(mid) => RunAll(schema, mid, b)
    decreases |a|
  {
    if a == [] {
      assert a + b == b;
    } else {
      assert (a + b)[0] == a[0] && (a + b)[1..] == a[1..] + b;
      match Exec(schema, db, a[0])
      case None =>
      case Some(next) => RunAllConcat(schema, next, a[1..], b);
    }
  }

  lemma RunAllSnoc(schema: Schema, db: Db, stmts: seq<Stmt>, stmt: Stmt)
    ensures RunAll(schema, db, stmts + [stmt]) ==
      match RunAll(schema, db, stmts)
      case None => None
      case Some(mid) => Exec(schema, mid, stmt)
  {
    RunAllConcat(schema, db, stmts, [stmt]);
    match RunAll(schema, db, stmts)
    case None =>
    case Some(mid) =>
      assert [stmt][1..] == [];
      match Exec(schema, mid, stmt)
      case None =>
      case Some(next) => assert RunAll(schema, next, [stmt][1..]) == Some(next);
  }

  /** A batch that runs at all leaves every constraint intact after each of its statements. */
  lemma {:induction false} EveryStatementLegal(schema: Schema, db: Db, stmts: seq<Stmt>, k: nat)
    requires RunAll(schema, db, stmts).Some? && 0 < k <= |stmts|
    ensures RunAll(schema, db, stmts[..k]).Some? && Legal(schema, RunAll(schema, db, stmts[..k]).value)
  {
    assert stmts == stmts[..k - 1] + stmts[k - 1..];
    RunAllConcat(schema, db, stmts[..k - 1], stmts[k - 1..]);
    assert stmts[..k] == stmts[..k - 1] + [stmts[k - 1]];
    RunAllSnoc(schema, db, stmts[..k - 1], stmts[k - 1]);
  }

  // ---------------------------------------------------------------- schemas

  predicate IsSelfRef(t: Table, fk: ForeignKey) {
    fk.target == t.name
  }

  /** `_self_referential_columns` */
  function SelfRefColumns(t: Table, fks: seq<ForeignKey>): (r: seq<string>)
    ensures forall c :: c in r <==> exists i :: 0 <= i < |fks| && IsSelfRef(t, fks[i]) && fks[i].column == c
  {
    if fks == [] then []
    else (if IsSelfRef(t, fks[0]) then [fks[0].column] else []) + SelfRefColumns(t, fks[1..])
  }

  function SelfRefs(t: Table): seq<string> {
    SelfRefColumns(t, t.foreignKeys)
  }

  ghost predicate Nullable(t: Table, name: string) {
    forall c :: 0 <= c < |t.columns| && t.columns[c].name == name ==> t.columns[c].nullable
  }

  ghost predicate IsForeignKeyColumn(t: Table, name: string) {
    exists k :: 0 <= k < |t.foreignKeys| && t.foreignKeys[k].column == name
  }

  ghost predicate InTable(schema: Schema, limit: nat, name: string)
    requires limit <= |schema|
  {
    exists j :: 0 <= j < limit && schema[j].name == name
  }

  /** References point to the table itself or to an earlier one; a self-reference can be left null. */
  ghost predicate TableWellFormed(schema: Schema, i: nat)
    requires i < |schema|
  {
    var t := schema[i];
    && (forall k :: 0 <= k < |t.foreignKeys| ==>
          var fk := t.foreignKeys[k];
          if IsSelfRef(t, fk) then HasColumn(t, "id") && fk.column != "id" && Nullable(t, fk.column)
          else InTable(schema, i, fk.target))
    && (t.name == LOOT_FILES ==>
          HasColumn(t, "id") && IsContentColumn(t, "content_oid") && IsContentColumn(t, "encrypted_content"))
    && (forall u, c :: 0 <= u < |t.uniques| && c in t.uniques[u] ==> c !in FreeColumns(t))
    && ChecksIgnoreFreeColumns(t)
  }

  /** The columns a restore leaves null for a while: self-references and loot contents. */
  function FreeColumns(t: Table): set<string> {
    (set c | c in SelfRefs(t)) + (if t.name == LOOT_FILES then CONTENT_COLUMNS else {})
  }

  /** The row is `full` with a self-reference left null or with other loot contents. */
  ghost predicate Relaxed(t: Table, row: Row, full: Row) {
    forall c {:trigger Cell(row, c)} :: Cell(row, c) == Cell(full, c)
      || (c in SelfRefs(t) && Cell(row, c) == Null) || (t.name == LOOT_FILES && c in CONTENT_COLUMNS)
  }

  /** No CHECK looks at a free column: what is accepted stays accepted when only those change. */
  ghost predicate ChecksIgnoreFreeColumns(t: Table) {
    forall row, full {:trigger Relaxed(t, row, full)} :: Relaxed(t, row, full) && t.accepts(full) ==> t.accepts(row)
  }

  /** A nullable column outside every key, such as the two that hold loot contents. */
  ghost predicate IsContentColumn(t: Table, name: string) {
    name != "id" && HasColumn(t, name) && Nullable(t, name) && !IsForeignKeyColumn(t, name)
  }

  ghost predicate WellFormed(schema: Schema) {
    && (forall i, j :: 0 <= i < j < |schema| ==> schema[i].name != schema[j].name)
    && (forall i :: 0 <= i < |schema| ==> TableWellFormed(schema, i))
  }

  ghost function TableNames(schema: Schema): set<string> {
    set i | 0 <= i < |schema| :: schema[i].name
  }
}
