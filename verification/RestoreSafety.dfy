/** Every statement of a restore leaves every reference, null constraint and id intact. */
module RestoreSafety {
  import opened Wrappers
  import opened ByteStrings
  import opened Database
  import opened Archive
  import opened RestorePlan

  // ---------------------------------------------------------------- changes that keep a table legal

  /** Rows that differ from `full` at most by self-references that are still null. */
  ghost predicate PartialOf(t: Table, rows: seq<Row>, full: seq<Row>) {
    && |rows| == |full|
    && forall k, c {:trigger Cell(rows[k], c)} :: 0 <= k < |rows| ==>
         Cell(rows[k], c) == Cell(full[k], c) || (c in SelfRefs(t) && Cell(rows[k], c) == Null)
  }

  ghost predicate SameBelow(schema: Schema, i: nat, db: Db, full: Db)
    requires i <= |schema|
  {
    forall j :: 0 <= j < i ==> Rows(db, schema[j].name) == Rows(full, schema[j].name)
  }

  ghost predicate EmptyFrom(schema: Schema, i: nat, db: Db) {
    forall j :: i <= j < |schema| ==> Rows(db, schema[j].name) == []
  }

  lemma EmptyTableLegal(db: Db, t: Table)
    requires Rows(db, t.name) == []
    ensures TableLegal(db, t)
  {
  }

  /** A table whose rows and parents are as in a legal store is legal. */
  lemma SameTableLegal(schema: Schema, j: nat, db: Db, full: Db)
    requires WellFormed(schema) && Legal(schema, full) && j < |schema|
    requires SameBelow(schema, j + 1, db, full)
    ensures TableLegal(db, schema[j])
  {
    var t := schema[j];
    var rows := Rows(db, t.name);
    assert TableLegal(full, t);
    forall r, k | 0 <= r < |rows| && 0 <= k < |t.foreignKeys|
      ensures RefHolds(db, rows[r], t.foreignKeys[k])
    {
      var fk := t.foreignKeys[k];
      assert RefHolds(full, rows[r], fk);
      assert TableWellFormed(schema, j);
      if !IsSelfRef(t, fk) {
        var p :| 0 <= p < j && schema[p].name == fk.target;
        assert Rows(db, schema[p].name) == Rows(full, schema[p].name);
      }
    }
  }

  lemma StageLegal(schema: Schema, i: nat, db: Db, full: Db)
    requires WellFormed(schema) && Legal(schema, full) && i <= |schema|
    requires SameBelow(schema, i, db, full) && EmptyFrom(schema, i, db)
    ensures Legal(schema, db)
  {
    forall j | 0 <= j < |schema|
      ensures TableLegal(db, schema[j])
    {
      if j < i {
        SameTableLegal(schema, j, db, full);
      } else {
        EmptyTableLegal(db, schema[j]);
      }
    }
  }

  lemma IdsOfPartial(t: Table, rows: seq<Row>, full: seq<Row>, v: Value)
    requires PartialOf(t, rows, full) && "id" !in SelfRefs(t)
    ensures IdExists(full, v) <==> IdExists(rows, v)
  {
    if IdExists(full, v) {
      var k :| 0 <= k < |full| && Cell(full[k], "id") == v;
      assert Cell(rows[k], "id") == v;
    }
    if IdExists(rows, v) {
      var k :| 0 <= k < |rows| && Cell(rows[k], "id") == v;
      assert Cell(full[k], "id") == v;
    }
  }

  lemma SelfRefsNotId(schema: Schema, i: nat)
    requires WellFormed(schema) && i < |schema|
    ensures "id" !in SelfRefs(schema[i])
  {
    assert TableWellFormed(schema, i);
  }

  lemma PartialTableLegal(schema: Schema, i: nat, db: Db, full: Db)
    requires WellFormed(schema) && Legal(schema, full) && i < |schema|
    requires SameBelow(schema, i, db, full)
    requires PartialOf(schema[i], Rows(db, schema[i].name), Rows(full, schema[i].name))
    ensures TableLegal(db, schema[i])
  {
    var t := schema[i];
    var rows, all := Rows(db, t.name), Rows(full, t.name);
    assert TableLegal(full, t) && TableWellFormed(schema, i);
    SelfRefsNotId(schema, i);
    forall r, k | 0 <= r < |rows| && 0 <= k < |t.foreignKeys|
      ensures RefHolds(db, rows[r], t.foreignKeys[k])
    {
      var fk := t.foreignKeys[k];
      assert RefHolds(full, all[r], fk);
      if Cell(rows[r], fk.column) == Null {
      } else if IsSelfRef(t, fk) {
        IdsOfPartial(t, rows, all, Cell(rows[r], fk.column));
      } else {
        var p :| 0 <= p < i && schema[p].name == fk.target;
        assert Rows(db, schema[p].name) == Rows(full, schema[p].name);
      }
    }
    forall r, c | 0 <= r < |rows| && 0 <= c < |t.columns| && !t.columns[c].nullable
      ensures Cell(rows[r], t.columns[c].name) != Null
    {
      SelfRefNullable(schema, i, c);
    }
    forall r, s | HasColumn(t, "id") && 0 <= r < s < |rows|
      ensures Cell(rows[r], "id") != Cell(rows[s], "id")
    {
      assert Cell(rows[r], "id") == Cell(all[r], "id") && Cell(rows[s], "id") == Cell(all[s], "id");
    }
    PartialRowsLegal(schema, i, rows, all);
  }

  /** UNIQUE keys and row checks never see that a self-reference is still null. */
  lemma PartialRowsLegal(schema: Schema, i: nat, rows: seq<Row>, full: seq<Row>)
    requires i < |schema| && TableWellFormed(schema, i) && PartialOf(schema[i], rows, full)
    requires KeysUnique(schema[i], full) && RowsAccepted(schema[i], full)
    ensures KeysUnique(schema[i], rows) && RowsAccepted(schema[i], rows)
  {
    var t := schema[i];
    forall u | 0 <= u < |t.uniques|
      ensures KeyUnique(rows, t.uniques[u])
    {
      forall k | 0 <= k < |rows|
        ensures KeyOf(rows[k], t.uniques[u]) == KeyOf(full[k], t.uniques[u])
      {
        forall c | c in t.uniques[u]
          ensures Cell(rows[k], c) == Cell(full[k], c)
        {
          assert c !in FreeColumns(t);
        }
      }
    }
    forall k | 0 <= k < |rows|
      ensures t.accepts(rows[k])
    {
      assert Relaxed(t, rows[k], full[k]);
    }
  }

  lemma SelfRefNullable(schema: Schema, i: nat, c: nat)
    requires WellFormed(schema) && i < |schema| && c < |schema[i].columns| && !schema[i].columns[c].nullable
    ensures schema[i].columns[c].name !in SelfRefs(schema[i])
  {
    assert TableWellFormed(schema, i);
  }

  /** While table i is being loaded: parents complete, itself partial, children empty. */
  lemma LoadingLegal(schema: Schema, i: nat, db: Db, full: Db)
    requires WellFormed(schema) && Legal(schema, full) && i < |schema|
    requires SameBelow(schema, i, db, full) && EmptyFrom(schema, i + 1, db)
    requires PartialOf(schema[i], Rows(db, schema[i].name), Rows(full, schema[i].name))
    ensures Legal(schema, db)
  {
    forall j | 0 <= j < |schema|
      ensures TableLegal(db, schema[j])
    {
      if j < i {
        SameTableLegal(schema, j, db, full);
      } else if j == i {
        PartialTableLegal(schema, i, db, full);
      } else {
        EmptyTableLegal(db, schema[j]);
      }
    }
  }

  // ---------------------------------------------------------------- wipe

  /** The tables from i on emptied, the others as in db. */
  function Emptied(schema: Schema, i: nat, db: Db): Db
    requires i <= |schema|
  {
    map name | name in db :: if name in NamesOf(schema[i..]) then [] else db[name]
  }

  lemma EmptiedStage(schema: Schema, i: nat, db: Db)
    requires WellFormed(schema) && i <= |schema|
    ensures SameBelow(schema, i, Emptied(schema, i, db), db) && EmptyFrom(schema, i, Emptied(schema, i, db))
  {
    forall j | i <= j < |schema|
      ensures schema[j].name in NamesOf(schema[i..])
    {
      assert NamesOf(schema[i..])[j - i] == schema[j].name;
    }
  }

  lemma EmptiedStep(schema: Schema, k: nat, db: Db)
    requires 0 < k <= |schema|
    ensures Effect(Emptied(schema, k, db), DeleteAll([schema[k - 1].name])) == Emptied(schema, k - 1, db)
  {
    var more, fewer := NamesOf(schema[k - 1..]), NamesOf(schema[k..]);
    assert more[0] == schema[k - 1].name;
    forall name
      ensures name in more <==> name == schema[k - 1].name || name in fewer
    {
      if name in fewer {
        var j :| 0 <= j < |fewer| && fewer[j] == name;
        assert more[j + 1] == name;
      }
      if name in more {
        var j :| 0 <= j < |more| && more[j] == name;
        if j > 0 {
          assert fewer[j - 1] == name;
        }
      }
    }
  }

  lemma {:induction false} WipeInReverseRuns(schema: Schema, k: nat, db: Db)
    requires WellFormed(schema) && Legal(schema, db) && k <= |schema|
    ensures RunAll(schema, Emptied(schema, k, db), WipeInReverse(schema, k)) == Some(Emptied(schema, 0, db))
  {
    hide Legal, WellFormed, Emptied, Effect;
    if k > 0 {
      EmptiedStep(schema, k, db);
      EmptiedStage(schema, k - 1, db);
      StageLegal(schema, k - 1, Emptied(schema, k - 1, db), db);
      WipeInReverseRuns(schema, k - 1, db);
    }
  }

  /** From any legal store the wipe runs through and empties every table. */
  lemma WipeRuns(isPostgres: bool, schema: Schema, db: Db)
    requires WellFormed(schema) && Legal(schema, db)
    ensures RunAll(schema, db, WipeStatements(isPostgres, schema)) == Some(Emptied(schema, 0, db))
  {
    if isPostgres {
      assert schema[0..] == schema;
      EmptiedStage(schema, 0, db);
      StageLegal(schema, 0, Emptied(schema, 0, db), db);
      var stmt := DeleteAll(NamesOf(schema));
      assert Effect(db, stmt) == Emptied(schema, 0, db);
      assert [stmt][1..] == [];
      assert RunAll(schema, Emptied(schema, 0, db), [stmt][1..]) == Some(Emptied(schema, 0, db));
    } else {
      assert schema[|schema|..] == [];
      assert NamesOf([]) == [];
      assert Emptied(schema, |schema|, db) == db;
      WipeInReverseRuns(schema, |schema|, db);
    }
  }

  // ---------------------------------------------------------------- insert and patch

  lemma {:induction false} ClearedCells(row: Row, columns: seq<string>)
    ensures Cleared(row, columns).Keys == row.Keys
    ensures forall c :: Cell(Cleared(row, columns), c) == if c in columns then Null else Cell(row, c)
    decreases |columns|
  {
    if columns != [] {
      ClearedCells(if Cell(row, columns[0]) != Null then row[columns[0] := Null] else row, columns[1..]);
    }
  }

  /** `cur` after the updates of Deferred(row, columns) have reached it. */
  function Patched(cur: Row, row: Row, columns: seq<string>): Row
    decreases |columns|
  {
    if columns == [] then cur
    else
      var c := columns[0];
      if Cell(row, c) == Null then Patched(cur, row, columns[1..])
      else Patched(cur[c := Cell(row, c)], row[c := Null], columns[1..])
  }

  lemma {:induction false} PatchedCells(cur: Row, row: Row, columns: seq<string>)
    ensures forall c :: Cell(Patched(cur, row, columns), c)
                     == if c in columns && Cell(row, c) != Null then Cell(row, c) else Cell(cur, c)
    ensures row.Keys <= cur.Keys ==> Patched(cur, row, columns).Keys == cur.Keys
    decreases |columns|
  {
    if columns != [] {
      var c := columns[0];
      if Cell(row, c) == Null {
        PatchedCells(cur, row, columns[1..]);
      } else {
        PatchedCells(cur[c := Cell(row, c)], row[c := Null], columns[1..]);
      }
    }
  }

  /** The patches undo the clearing. */
  lemma PatchUndoesClear(row: Row, columns: seq<string>)
    ensures Patched(Cleared(row, columns), row, columns) == row
  {
    var back := Patched(Cleared(row, columns), row, columns);
    ClearedCells(row, columns);
    PatchedCells(Cleared(row, columns), row, columns);
    forall c | c in row
      ensures back[c] == row[c]
    {
      assert Cell(back, c) == Cell(row, c);
    }
  }

  ghost predicate RowsIdentified(rows: seq<Row>) {
    && (forall k :: 0 <= k < |rows| ==> Cell(rows[k], "id") != Null)
    && (forall p, q :: 0 <= p < q < |rows| ==> Cell(rows[p], "id") != Cell(rows[q], "id"))
  }

  /** With unique ids an update by id changes one row. */
  lemma UpdateOneRow(rows: seq<Row>, n: nat, id: Value, values: Row)
    requires n < |rows| && id != Null && Cell(rows[n], "id") == id
    requires forall i, j :: 0 <= i < j < |rows| ==> Cell(rows[i], "id") != Cell(rows[j], "id")
    ensures UpdateRows(rows, id, values) == rows[n := rows[n] + values]
  {
  }

  /** The rest of the store being `base`, table t may hold any partial version of `all`. */
  ghost predicate PartialsLegal(schema: Schema, t: Table, base: Db, all: seq<Row>) {
    forall rows :: PartialOf(t, rows, all) ==> Legal(schema, base[t.name := rows])
  }

  lemma PartialUpdate(t: Table, rows: seq<Row>, all: seq<Row>, n: nat, c: string)
    requires PartialOf(t, rows, all) && n < |rows|
    ensures PartialOf(t, rows[n := rows[n][c := Cell(all[n], c)]], all)
  {
    var cur := rows[n][c := Cell(all[n], c)];
    forall k, d | 0 <= k < |rows|
      ensures var r := rows[n := cur][k]; Cell(r, d) == Cell(all[k], d) || (d in SelfRefs(t) && Cell(r, d) == Null)
    {
      assert Cell(rows[k], d) == Cell(all[k], d) || (d in SelfRefs(t) && Cell(rows[k], d) == Null);
    }
  }

  lemma PartialIdentified(t: Table, rows: seq<Row>, all: seq<Row>)
    requires PartialOf(t, rows, all) && "id" !in SelfRefs(t) && RowsIdentified(all)
    ensures RowsIdentified(rows)
    ensures forall k :: 0 <= k < |rows| ==> Cell(rows[k], "id") == Cell(all[k], "id")
  {
  }

  lemma PatchOneCell(schema: Schema, t: Table, base: Db, all: seq<Row>, rows: seq<Row>, n: nat, c: string)
    requires PartialsLegal(schema, t, base, all) && PartialOf(t, rows, all)
    requires "id" !in SelfRefs(t) && RowsIdentified(all) && n < |all|
    ensures var rows' := rows[n := rows[n][c := Cell(all[n], c)]];
      && PartialOf(t, rows', all)
      && Exec(schema, base[t.name := rows], UpdateWhereId(t.name, Cell(all[n], "id"), map[c := Cell(all[n], c)]))
         == Some(base[t.name := rows'])
  {
    var values := map[c := Cell(all[n], c)];
    var rows' := rows[n := rows[n][c := Cell(all[n], c)]];
    PartialIdentified(t, rows, all);
    UpdateOneRow(rows, n, Cell(all[n], "id"), values);
    assert rows[n] + values == rows[n][c := Cell(all[n], c)];
    PartialUpdate(t, rows, all, n, c);
    assert base[t.name := rows][t.name := rows'] == base[t.name := rows'];
  }

  lemma {:induction false} PatchRowRuns(schema: Schema, t: Table, base: Db, all: seq<Row>, rows: seq<Row>, n: nat,
                                        row: Row, columns: seq<string>)
    requires PartialsLegal(schema, t, base, all) && PartialOf(t, rows, all)
    requires "id" !in SelfRefs(t) && RowsIdentified(all) && n < |all|
    requires Cell(row, "id") == Cell(all[n], "id")
    requires forall c :: c in columns ==> c in SelfRefs(t) && (Cell(row, c) == Null || Cell(row, c) == Cell(all[n], c))
    ensures var rows' := rows[n := Patched(rows[n], row, columns)];
      && RunAll(schema, base[t.name := rows], Deferred(t, row, columns)) == Some(base[t.name := rows'])
      && PartialOf(t, rows', all)
    decreases |columns|
  {
    if columns == [] {
      assert rows[n := rows[n]] == rows;
    } else if Cell(row, columns[0]) == Null {
      PatchRowRuns(schema, t, base, all, rows, n, row, columns[1..]);
    } else {
      var c := columns[0];
      assert c in columns;
      var rows1 := rows[n := rows[n][c := Cell(row, c)]];
      var stmt := UpdateWhereId(t.name, Cell(row, "id"), map[c := Cell(row, c)]);
      var rest := Deferred(t, row[c := Null], columns[1..]);
      PatchOneCell(schema, t, base, all, rows, n, c);
      PatchRowRuns(schema, t, base, all, rows1, n, row[c := Null], columns[1..]);
      assert Deferred(t, row, columns) == [stmt] + rest;
      assert ([stmt] + rest)[1..] == rest;
      var last := Patched(rows[n], row, columns);
      assert rows1[n := last] == rows[n := last];
    }
  }

  lemma PatchWholeRow(schema: Schema, t: Table, base: Db, all: seq<Row>, rows: seq<Row>, n: nat)
    requires PartialsLegal(schema, t, base, all) && PartialOf(t, rows, all)
    requires "id" !in SelfRefs(t) && (SelfRefs(t) != [] ==> RowsIdentified(all)) && n < |all|
    requires rows[n] == Cleared(all[n], SelfRefs(t))
    ensures RunAll(schema, base[t.name := rows], Deferred(t, all[n], SelfRefs(t)))
         == Some(base[t.name := rows[n := all[n]]])
    ensures PartialOf(t, rows[n := all[n]], all)
  {
    if SelfRefs(t) == [] {
      assert rows[n := all[n]] == rows;
    } else {
      PatchRowRuns(schema, t, base, all, rows, n, all[n], SelfRefs(t));
      PatchUndoesClear(all[n], SelfRefs(t));
    }
  }

  /** Rows 0..n patched, the others still cleared. */
  function PatchedUpTo(t: Table, all: seq<Row>, n: nat): (rows: seq<Row>)
    requires n <= |all|
    ensures |rows| == |all|
    ensures forall k :: 0 <= k < |all| ==> rows[k] == if k < n then all[k] else Cleared(all[k], SelfRefs(t))
  {
    all[..n] + ClearedAll(t, all[n..])
  }

  lemma PatchedUpToPartial(t: Table, all: seq<Row>, n: nat)
    requires n <= |all|
    ensures PartialOf(t, PatchedUpTo(t, all, n), all)
  {
    forall k | 0 <= k < |all|
      ensures forall c :: Cell(Cleared(all[k], SelfRefs(t)), c) == if c in SelfRefs(t) then Null else Cell(all[k], c)
    {
      ClearedCells(all[k], SelfRefs(t));
    }
  }

  lemma {:induction false} PatchesRun(schema: Schema, t: Table, base: Db, all: seq<Row>, n: nat)
    requires PartialsLegal(schema, t, base, all)
    requires "id" !in SelfRefs(t) && (SelfRefs(t) != [] ==> RowsIdentified(all)) && n <= |all|
    ensures RunAll(schema, base[t.name := PatchedUpTo(t, all, n)], DeferredAll(t, all[n..])) == Some(base[t.name := all])
    decreases |all| - n
  {
    if n == |all| {
      assert PatchedUpTo(t, all, n) == all;
    } else {
      var rows := PatchedUpTo(t, all, n);
      PatchedUpToPartial(t, all, n);
      PatchWholeRow(schema, t, base, all, rows, n);
      assert rows[n := all[n]] == PatchedUpTo(t, all, n + 1);
      PatchesRun(schema, t, base, all, n + 1);
      var first, rest := Deferred(t, all[n], SelfRefs(t)), DeferredAll(t, all[n + 1..]);
      assert all[n..][1..] == all[n + 1..];
      assert DeferredAll(t, all[n..]) == first + rest;
      RunAllConcat(schema, base[t.name := rows], first, rest);
    }
  }

  /** "id" is never null. */
  ghost predicate IdsPresent(schema: Schema, db: Db) {
    forall i, k :: 0 <= i < |schema| && HasColumn(schema[i], "id") && 0 <= k < |Rows(db, schema[i].name)| ==>
      Cell(Rows(db, schema[i].name)[k], "id") != Null
  }

  /** Every row that a patch has to find can be found by its id. */
  ghost predicate SelfRefsIdentified(schema: Schema, db: Db) {
    forall i :: 0 <= i < |schema| && SelfRefs(schema[i]) != [] ==> RowsIdentified(Rows(db, schema[i].name))
  }

  lemma LegalIdentifies(schema: Schema, full: Db)
    requires WellFormed(schema) && Legal(schema, full) && IdsPresent(schema, full)
    ensures SelfRefsIdentified(schema, full)
  {
    forall i | 0 <= i < |schema| && SelfRefs(schema[i]) != []
      ensures RowsIdentified(Rows(full, schema[i].name))
    {
      var t := schema[i];
      assert SelfRefs(t)[0] in SelfRefs(t);
      var k :| 0 <= k < |t.foreignKeys| && IsSelfRef(t, t.foreignKeys[k]);
      assert TableWellFormed(schema, i) && TableLegal(full, t);
    }
  }

  /**
    The constraints a run is checked against: those of the schema, all of which
    the complete store satisfies, or none, which leaves only the effects.
   */
  ghost predicate CheckedBy(checked: Schema, schema: Schema, full: Db) {
    checked == [] || (checked == schema && Legal(schema, full))
  }

  lemma LoadingPartials(checked: Schema, schema: Schema, i: nat, db: Db, full: Db)
    requires i < |schema| && WellFormed(schema) && CheckedBy(checked, schema, full)
    requires SameBelow(schema, i, db, full) && EmptyFrom(schema, i, db)
    ensures PartialsLegal(checked, schema[i], db, Rows(full, schema[i].name))
  {
    var t := schema[i];
    forall rows | PartialOf(t, rows, Rows(full, t.name))
      ensures Legal(checked, db[t.name := rows])
    {
      if checked != [] {
        var next := db[t.name := rows];
        forall j | 0 <= j < |schema| && j != i
          ensures Rows(next, schema[j].name) == Rows(db, schema[j].name)
        {
        }
        LoadingLegal(schema, i, next, full);
      }
    }
  }

  /** Loading one table, whatever the order of its rows, ends with exactly its rows. */
  lemma TableLoads(checked: Schema, schema: Schema, i: nat, db: Db, full: Db)
    requires i < |schema| && WellFormed(schema) && CheckedBy(checked, schema, full) && SelfRefsIdentified(schema, full)
    requires schema[i].name in db && SameBelow(schema, i, db, full) && EmptyFrom(schema, i, db)
    ensures var t := schema[i];
      RunAll(checked, db, InsertAndPatch(t, Rows(full, t.name))) == Some(db[t.name := Rows(full, t.name)])
  {
    var t := schema[i];
    var all := Rows(full, t.name);
    assert Rows(db, t.name) == [];
    if all == [] {
      assert db[t.name := []] == db;
    } else {
      LoadingPartials(checked, schema, i, db, full);
      var cleared := PatchedUpTo(t, all, 0);
      assert all[0..] == all && cleared == ClearedAll(t, all);
      PatchedUpToPartial(t, all, 0);
      assert Effect(db, Insert(t.name, cleared)) == db[t.name := cleared];
      SelfRefsNotId(schema, i);
      PatchesRun(checked, t, db, all, 0);
      assert ([Insert(t.name, cleared)] + DeferredAll(t, all))[1..] == DeferredAll(t, all);
    }
  }

  // ---------------------------------------------------------------- all tables

  /** The archive's rows, table by table, are those of `full`. */
  ghost predicate Reads(codec: Codec, schema: Schema, manifest: Manifest, full: Db) {
    forall i :: 0 <= i < |schema| ==>
      DeserializeRows(codec, schema[i], RawRows(manifest, schema[i].name)) == Some(Rows(full, schema[i].name))
  }

  lemma {:induction false} LoadsRun(checked: Schema, codec: Codec, schema: Schema, manifest: Manifest, full: Db,
                                    k: nat, db: Db)
    requires WellFormed(schema) && CheckedBy(checked, schema, full) && SelfRefsIdentified(schema, full)
    requires Reads(codec, schema, manifest, full)
    requires k <= |schema| && SameBelow(schema, k, db, full) && EmptyFrom(schema, k, db)
    requires forall i :: 0 <= i < |schema| ==> schema[i].name in db
    ensures var stmts := LoadStatements(codec, schema[k..], manifest);
      && stmts.Some?
      && RunAll(checked, db, stmts.value).Some?
      && RunAll(checked, db, stmts.value).value.Keys == db.Keys
      && SameBelow(schema, |schema|, RunAll(checked, db, stmts.value).value, full)
    decreases |schema| - k
  {
    if k == |schema| {
      assert schema[k..] == [];
    } else {
      var t := schema[k];
      var next := db[t.name := Rows(full, t.name)];
      TableLoads(checked, schema, k, db, full);
      forall j | 0 <= j < |schema| && j != k
        ensures Rows(next, schema[j].name) == Rows(db, schema[j].name)
      {
      }
      assert next.Keys == db.Keys;
      LoadsRun(checked, codec, schema, manifest, full, k + 1, next);
      assert schema[k..][0] == t && schema[k..][1..] == schema[k + 1..];
      var rest := LoadStatements(codec, schema[k + 1..], manifest).value;
      RunAllConcat(checked, db, InsertAndPatch(t, Rows(full, t.name)), rest);
    }
  }

  lemma SameStore(schema: Schema, db: Db, full: Db)
    requires SameBelow(schema, |schema|, db, full)
    requires db.Keys == TableNames(schema) == full.Keys
    ensures db == full
  {
    forall name | name in db
      ensures db[name] == full[name]
    {
      var i :| 0 <= i < |schema| && schema[i].name == name;
      assert Rows(db, schema[i].name) == Rows(full, schema[i].name);
    }
  }

  lemma EmptiedNames(schema: Schema, db: Db)
    requires WellFormed(schema) && db.Keys == TableNames(schema)
    ensures var empty := Emptied(schema, 0, db);
      && empty.Keys == TableNames(schema)
      && EmptyFrom(schema, 0, empty)
      && forall i :: 0 <= i < |schema| ==> schema[i].name in empty
  {
    EmptiedStage(schema, 0, db);
    assert forall i :: 0 <= i < |schema| ==> schema[i].name in TableNames(schema);
  }

  lemma AllTablesLoad(checked: Schema, codec: Codec, schema: Schema, manifest: Manifest, full: Db, db: Db)
    requires WellFormed(schema) && CheckedBy(checked, schema, full) && SelfRefsIdentified(schema, full)
    requires Reads(codec, schema, manifest, full) && db.Keys == TableNames(schema) == full.Keys
    ensures var load := LoadStatements(codec, schema, manifest);
      load.Some? && RunAll(checked, Emptied(schema, 0, db), load.value) == Some(full)
  {
    EmptiedNames(schema, db);
    hide WellFormed, CheckedBy, SelfRefsIdentified, Reads, LoadStatements, TableNames, Emptied, RunAll, EmptyFrom;
    var empty := Emptied(schema, 0, db);
    LoadsRun(checked, codec, schema, manifest, full, 0, empty);
    assert schema[0..] == schema;
    SameStore(schema, RunAll(checked, empty, LoadStatements(codec, schema, manifest).value).value, full);
  }

  /** Wiping any legal store and loading a legal one breaks nothing on the way and ends with its rows. */
  lemma WipeAndLoadRun(isPostgres: bool, codec: Codec, schema: Schema, manifest: Manifest, full: Db, db: Db)
    requires WellFormed(schema) && Legal(schema, full) && IdsPresent(schema, full) && Reads(codec, schema, manifest, full)
    requires Legal(schema, db) && db.Keys == TableNames(schema) == full.Keys
    ensures var load := LoadStatements(codec, schema, manifest);
      load.Some? && RunAll(schema, db, WipeStatements(isPostgres, schema) + load.value) == Some(full)
  {
    LegalIdentifies(schema, full);
    assert CheckedBy(schema, schema, full);
    hide *;
    WipeRuns(isPostgres, schema, db);
    AllTablesLoad(schema, codec, schema, manifest, full, db);
    RunAllConcat(schema, db, WipeStatements(isPostgres, schema), LoadStatements(codec, schema, manifest).value);
  }

  // ---------------------------------------------------------------- a run that succeeds was legal

  lemma {:induction false} UncheckedRun(schema: Schema, db: Db, stmts: seq<Stmt>)
    requires RunAll(schema, db, stmts).Some?
    ensures RunAll([], db, stmts) == RunAll(schema, db, stmts)
    decreases |stmts|
  {
    if stmts != [] {
      UncheckedRun(schema, Exec(schema, db, stmts[0]).value, stmts[1..]);
    }
  }

  /** Every table with an "id" declares it not null. */
  ghost predicate IdsRequired(schema: Schema) {
    forall i :: 0 <= i < |schema| && HasColumn(schema[i], "id") ==> !Nullable(schema[i], "id")
  }

  /** A legal table whose "id" is declared not null and unique identifies its rows. */
  lemma LegalRowsIdentified(schema: Schema, i: nat, db: Db)
    requires WellFormed(schema) && IdsRequired(schema) && i < |schema|
    requires SelfRefs(schema[i]) != [] && TableLegal(db, schema[i])
    ensures RowsIdentified(Rows(db, schema[i].name))
  {
    var t := schema[i];
    assert SelfRefs(t)[0] in SelfRefs(t);
    var f :| 0 <= f < |t.foreignKeys| && IsSelfRef(t, t.foreignKeys[f]);
    assert TableWellFormed(schema, i);
    var c :| 0 <= c < |t.columns| && t.columns[c].name == "id" && !t.columns[c].nullable;
    forall k | 0 <= k < |Rows(db, t.name)|
      ensures Cell(Rows(db, t.name)[k], "id") != Null
    {
      assert Cell(Rows(db, t.name)[k], t.columns[c].name) != Null;
    }
  }

  lemma InsertedIdentified(schema: Schema, i: nat, db: Db, all: seq<Row>)
    requires WellFormed(schema) && IdsRequired(schema) && i < |schema|
    requires SelfRefs(schema[i]) != [] && all != []
    requires RunAll(schema, db, InsertAndPatch(schema[i], all)).Some?
    ensures RowsIdentified(all)
  {
    var t := schema[i];
    var cleared := ClearedAll(t, all);
    var next := Effect(db, Insert(t.name, cleared));
    assert Exec(schema, db, InsertAndPatch(t, all)[0]) == Some(next);
    assert TableLegal(next, t);
    SelfRefsNotId(schema, i);
    hide TableLegal, WellFormed, IdsRequired, RunAll, DeferredAll, Legal, Cleared, SelfRefs, ClearedAll;
    LegalRowsIdentified(schema, i, next);
    var before, rows := |Rows(db, t.name)|, Rows(next, t.name);
    assert rows[before..] == cleared;
    TailIdentified(t, rows, before, all);
  }

  /** Rows inserted with their self-references nulled are identified by the same ids. */
  lemma TailIdentified(t: Table, rows: seq<Row>, before: nat, all: seq<Row>)
    requires "id" !in SelfRefs(t) && RowsIdentified(rows) && before <= |rows| && rows[before..] == ClearedAll(t, all)
    ensures RowsIdentified(all)
  {
    forall k | 0 <= k < |all|
      ensures Cell(rows[before + k], "id") == Cell(all[k], "id")
    {
      assert rows[before + k] == ClearedAll(t, all)[k];
      ClearedCells(all[k], SelfRefs(t));
    }
    forall p, q | 0 <= p < q < |all|
      ensures Cell(all[p], "id") != Cell(all[q], "id")
    {
      assert Cell(rows[before + p], "id") != Cell(rows[before + q], "id");
    }
  }

  lemma {:induction false} LoadedIdentified(codec: Codec, schema: Schema, manifest: Manifest, full: Db, k: nat, db: Db)
    requires WellFormed(schema) && IdsRequired(schema) && Reads(codec, schema, manifest, full) && k <= |schema|
    requires LoadStatements(codec, schema[k..], manifest).Some?
    requires RunAll(schema, db, LoadStatements(codec, schema[k..], manifest).value).Some?
    ensures forall i :: k <= i < |schema| && SelfRefs(schema[i]) != [] ==> RowsIdentified(Rows(full, schema[i].name))
    decreases |schema| - k
  {
    if k < |schema| {
      hide WellFormed, IdsRequired;
      var t := schema[k];
      var all := Rows(full, t.name);
      assert schema[k..][0] == t && schema[k..][1..] == schema[k + 1..];
      var rest := LoadStatements(codec, schema[k + 1..], manifest).value;
      RunAllConcat(schema, db, InsertAndPatch(t, all), rest);
      LoadedIdentified(codec, schema, manifest, full, k + 1, RunAll(schema, db, InsertAndPatch(t, all)).value);
      if SelfRefs(t) != [] && all != [] {
        InsertedIdentified(schema, k, db, all);
      }
    }
  }

  lemma {:induction false} ReadsLoads(codec: Codec, schema: Schema, manifest: Manifest, full: Db)
    requires Reads(codec, schema, manifest, full)
    ensures LoadStatements(codec, schema, manifest).Some?
  {
    if schema != [] {
      assert DeserializeRows(codec, schema[0], RawRows(manifest, schema[0].name)) == Some(Rows(full, schema[0].name));
      assert Reads(codec, schema[1..], manifest, full) by {
        forall i | 0 <= i < |schema[1..]|
          ensures DeserializeRows(codec, schema[1..][i], RawRows(manifest, schema[1..][i].name))
               == Some(Rows(full, schema[1..][i].name))
        {
          assert schema[1..][i] == schema[i + 1];
        }
      }
      ReadsLoads(codec, schema[1..], manifest, full);
    }
  }

  /** Whatever wipe and load leave behind is the archive's own rows. */
  lemma WipeAndLoadResult(isPostgres: bool, codec: Codec, schema: Schema, manifest: Manifest, full: Db, db: Db)
    requires WellFormed(schema) && IdsRequired(schema) && Reads(codec, schema, manifest, full)
    requires Legal(schema, db) && db.Keys == TableNames(schema) == full.Keys
    requires LoadStatements(codec, schema, manifest).Some?
    requires RunAll(schema, db, WipeStatements(isPostgres, schema) + LoadStatements(codec, schema, manifest).value).Some?
    ensures RunAll(schema, db, WipeStatements(isPostgres, schema) + LoadStatements(codec, schema, manifest).value)
         == Some(full)
  {
    assert CheckedBy([], schema, full);
    var empty := Emptied(schema, 0, db);
    var load := LoadStatements(codec, schema, manifest).value;
    assert SelfRefsIdentified(schema, full) by {
      hide Legal, WellFormed, IdsRequired, Reads, LoadStatements, WipeStatements, RunAll, Emptied;
      WipeRuns(isPostgres, schema, db);
      RunAllConcat(schema, db, WipeStatements(isPostgres, schema), load);
      assert schema[0..] == schema;
      LoadedIdentified(codec, schema, manifest, full, 0, empty);
    }
    hide *;
    WipeRuns(isPostgres, schema, db);
    RunAllConcat(schema, db, WipeStatements(isPostgres, schema), load);
    AllTablesLoad([], codec, schema, manifest, full, db);
    UncheckedRun(schema, empty, load);
  }
}
