/** A database session: statements run inside a transaction that is committed or rolled back as a whole. */
module Sessions {
  import opened Wrappers
  import opened ByteStrings
  import opened LargeObjects
  import opened Database

  class Session {
    const schema: Schema
    const isPostgres: bool
    const conn: PgConn
    /** What the running transaction sees. */
    var tables: Db
    /** What the last commit left. */
    var savedTables: Db
    var savedObjects: map<nat, Bytes>
    /** On Postgres, the last id each table's sequence was set to; a table without one starts at 1. */
    var sequences: map<string, int>
    var savedSequences: map<string, int>
    /** After this many more statements the connection fails; None is a connection that never does. */
    var failAfter: Option<nat>

    constructor (schema: Schema, isPostgres: bool, conn: PgConn, tables: Db, sequences: map<string, int>,
                 failAfter: Option<nat>)
      ensures this.schema == schema && this.isPostgres == isPostgres && this.conn == conn
      ensures this.tables == tables && this.sequences == sequences && this.failAfter == failAfter && Clean()
    {
      this.schema := schema;
      this.isPostgres := isPostgres;
      this.conn := conn;
      this.tables := tables;
      this.failAfter := failAfter;
      this.savedTables := tables;
      this.savedObjects := conn.objects;
      this.sequences := sequences;
      this.savedSequences := sequences;
    }

    /** No transaction is open. */
    ghost predicate Clean()
      reads this, conn
    {
      savedTables == tables && savedObjects == conn.objects && savedSequences == sequences
    }

    /** Runs one statement, or raises: because a constraint would break, or because the connection failed. */
    method Execute(stmt: Stmt) returns (ok: bool)
      modifies this`tables, this`failAfter
      ensures ok ==> Exec(schema, old(tables), stmt) == Some(tables)
      ensures !ok ==> tables == old(tables)
      ensures old(failAfter) == None ==> failAfter == None && (ok <==> Exec(schema, old(tables), stmt).Some?)
    {
      if failAfter.Some? {
        if failAfter.value == 0 {
          return false;
        }
        failAfter := Some(failAfter.value - 1);
      }
      match Exec(schema, tables, stmt) {
        case None =>
          ok := false;
        case Some(next) =>
          tables := next;
          ok := true;
      }
    }

    /** Runs statements in order up to the first that raises. */
    method ExecuteAll(stmts: seq<Stmt>) returns (ok: bool)
      modifies this`tables, this`failAfter
      ensures ok ==> RunAll(schema, old(tables), stmts) == Some(tables)
      ensures old(failAfter) == None ==> failAfter == None && (ok <==> RunAll(schema, old(tables), stmts).Some?)
    {
      var i := 0;
      ok := true;
      assert stmts[..0] == [];
      hide Exec;
      while i < |stmts|
        invariant i <= |stmts|
        invariant RunAll(schema, old(tables), stmts[..i]) == Some(tables)
        invariant old(failAfter) == None ==> failAfter == None
      {
        assert stmts[..i + 1] == stmts[..i] + [stmts[i]];
        RunAllSnoc(schema, old(tables), stmts[..i], stmts[i]);
        ok := Execute(stmts[i]);
        if !ok {
          assert stmts == stmts[..i + 1] + stmts[i + 1..];
          RunAllConcat(schema, old(tables), stmts[..i + 1], stmts[i + 1..]);
          return;
        }
        i := i + 1;
      }
      assert stmts[..i] == stmts;
    }

    method Commit()
      requires conn.Valid()
      modifies this`savedTables, this`savedObjects, this`savedSequences
      ensures Clean()
    {
      savedTables := tables;
      savedObjects := conn.objects;
      savedSequences := sequences;
    }

    /**
      Undoes every statement, every Large Object and every sequence restart
      since the last commit; oids are not reused.
     */
    method Rollback()
      requires conn.Valid() && forall oid :: oid in savedObjects ==> oid < conn.nextOid
      modifies this`tables, this`sequences, conn`objects
      ensures Clean() && conn.Valid() && tables == old(savedTables) && conn.objects == old(savedObjects)
      ensures sequences == old(savedSequences)
    {
      tables := savedTables;
      sequences := savedSequences;
      conn.objects := savedObjects;
    }
  }
}
