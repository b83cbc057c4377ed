/** What each scope of a backup puts into the archive, entry by entry. */
module ArchiveContents {
  import opened Wrappers
  import opened ByteStrings
  import opened Database
  import opened Archive
  import opened EngagementArchive
  import opened RestoreRoundTrip

  // ---------------------------------------------------------------- loot entries

  /** The bytes behind a row: its Large Object's if it names one, else those of its inline column. */
  ghost predicate HasContent(row: Row, objects: map<nat, Bytes>, bytes: Bytes) {
    var oid := Cell(row, "content_oid");
    if oid.Int? then oid.n >= 0 && oid.n in objects && objects[oid.n] == bytes
    else Cell(row, "encrypted_content") == Binary(bytes)
  }

  /** There are bytes behind the row, and more than none. */
  ghost predicate HasSome(row: Row, objects: map<nat, Bytes>) {
    exists bytes: Bytes :: bytes != [] && HasContent(row, objects, bytes)
  }

  /** The row names a Large Object that is not there. */
  predicate Dangles(row: Row, objects: map<nat, Bytes>) {
    var oid := Cell(row, "content_oid");
    oid.Int? && (oid.n < 0 || oid.n !in objects)
  }

  /** The entry of a loot file: named after its engagement, its id and its file name, and holding its bytes. */
  ghost predicate IsEntryOf(entry: Entry, row: Row, objects: map<nat, Bytes>) {
    && entry.name == "loot_storage/" + Printed(Cell(row, "engagement_id")) + "/" + Printed(Cell(row, "id")) + "_"
                     + Printed(Cell(row, "original_filename")) + ".enc"
    && entry.content.Raw? && entry.content.bytes != [] && HasContent(row, objects, entry.content.bytes)
  }

  /** The entries are those of the rows at `picked`, in row order. */
  ghost predicate Lists(entries: Zip, rows: seq<Row>, picked: seq<nat>, objects: map<nat, Bytes>) {
    && |entries| == |picked|
    && Ascending(picked)
    && forall j :: 0 <= j < |picked| ==> picked[j] < |rows| && IsEntryOf(entries[j], rows[picked[j]], objects)
  }

  /** Which loot files a scope is about. */
  predicate Concerns(scope: Scope, row: Row) {
    match scope
    case FullVault => true
    case LootOnly => true
    case DatabaseOnly => false
    case OneEngagement(None) => true
    case OneEngagement(Some(id)) => Cell(row, "engagement_id") == Int(id)
  }

  /** One entry for each loot file of the scope that has contents, and no other. */
  ghost predicate LootArchived(scope: Scope, entries: Zip, rows: seq<Row>, objects: map<nat, Bytes>) {
    exists picked :: Lists(entries, rows, picked, objects)
      && forall k: nat :: k in picked <==> k < |rows| && Concerns(scope, rows[k]) && HasSome(rows[k], objects)
  }

  lemma BlobIsContent(row: Row, objects: map<nat, Bytes>)
    ensures HasBlob(row, objects) <==> HasSome(row, objects)
    ensures HasBlob(row, objects) ==> IsEntryOf(Entry(LootName(row), Raw(LootBlob(row, objects).value)), row, objects)
  {
    hide Printed;
    if HasBlob(row, objects) {
      assert HasContent(row, objects, LootBlob(row, objects).value);
    }
    if bytes: Bytes :| bytes != [] && HasContent(row, objects, bytes) {
      assert LootBlob(row, objects) == Some(bytes);
    }
  }

  predicate Ascending(at: seq<nat>) {
    forall i, j :: 0 <= i < j < |at| ==> at[i] < at[j]
  }

  lemma PrependAscending(k: nat, at: seq<nat>)
    requires Ascending(at) && forall i <- at :: k < i
    ensures Ascending([k] + at)
    ensures forall i :: i in [k] + at <==> i == k || i in at
  {
    var all := [k] + at;
    forall i, j | 0 <= i < j < |all|
      ensures all[i] < all[j]
    {
      assert all[j] == at[j - 1] && at[j - 1] in at;
      if i > 0 {
        assert all[i] == at[i - 1];
      }
    }
  }

  lemma PrependEntry(entry: Entry, entries: Zip, rows: seq<Row>, k: nat, picked: seq<nat>, objects: map<nat, Bytes>)
    requires Lists(entries, rows, picked, objects) && k < |rows| && IsEntryOf(entry, rows[k], objects)
    requires forall i <- picked :: k < i
    ensures Lists([entry] + entries, rows, [k] + picked, objects)
  {
    hide IsEntryOf;
    PrependAscending(k, picked);
    var all := [k] + picked;
    forall j | 0 <= j < |all|
      ensures all[j] < |rows| && IsEntryOf(([entry] + entries)[j], rows[all[j]], objects)
    {
      if j > 0 {
        assert all[j] == picked[j - 1] && ([entry] + entries)[j] == entries[j - 1];
      }
    }
  }

  /** The kept rows are those at the given positions. */
  ghost predicate AreAt(kept: seq<Row>, rows: seq<Row>, at: seq<nat>) {
    Ascending(at) && |at| == |kept| && forall j :: 0 <= j < |at| ==> at[j] < |rows| && rows[at[j]] == kept[j]
  }

  lemma TailAreAt(kept: seq<Row>, rows: seq<Row>, at: seq<nat>)
    requires AreAt(kept, rows, at) && kept != []
    ensures AreAt(kept[1..], rows, at[1..])
    ensures forall i :: i in at <==> i == at[0] || i in at[1..]
    ensures forall i <- at[1..] :: at[0] < i < |rows|
  {
    assert at == [at[0]] + at[1..];
    forall i | i in at[1..]
      ensures at[0] < i < |rows|
    {
      var j :| 0 <= j < |at[1..]| && at[1..][j] == i;
      assert at[j + 1] == i;
    }
  }

  /** Of the kept rows, those with contents have an entry each. */
  lemma {:induction false} EntriesArePicked(rows: seq<Row>, kept: seq<Row>, at: seq<nat>, objects: map<nat, Bytes>)
    returns (picked: seq<nat>)
    requires AreAt(kept, rows, at)
    ensures Lists(LootEntries(kept, objects), rows, picked, objects)
    ensures forall k: nat :: k in picked <==> k in at && k < |rows| && HasSome(rows[k], objects)
  {
    assert |at| == |kept| && (at != [] ==> at[0] < |rows| && rows[at[0]] == kept[0]);
    hide LootName, LootBlob, HasSome, IsEntryOf, AreAt;
    if kept == [] {
      picked := [];
    } else {
      TailAreAt(kept, rows, at);
      picked := EntriesArePicked(rows, kept[1..], at[1..], objects);
      BlobIsContent(kept[0], objects);
      if HasBlob(kept[0], objects) {
        var entry := Entry(LootName(kept[0]), Raw(LootBlob(kept[0], objects).value));
        PrependEntry(entry, LootEntries(kept[1..], objects), rows, at[0], picked, objects);
        PrependAscending(at[0], picked);
        picked := [at[0]] + picked;
      } else {
        assert LootEntries(kept, objects) == LootEntries(kept[1..], objects);
      }
    }
  }

  /** The positions of an engagement's rows. */
  lemma {:induction false} OfEngagementAt(rows: seq<Row>, id: int, n: nat) returns (at: seq<nat>)
    requires n <= |rows|
    ensures AreAt(OfEngagement(rows[n..], id), rows, at)
    ensures forall k: nat :: k in at <==> n <= k < |rows| && Cell(rows[k], "engagement_id") == Int(id)
    decreases |rows| - n
  {
    if n == |rows| {
      at := [];
    } else {
      at := OfEngagementAt(rows, id, n + 1);
      assert rows[n..][0] == rows[n] && rows[n..][1..] == rows[n + 1..];
      if Cell(rows[n], "engagement_id") == Int(id) {
        PrependRow(OfEngagement(rows[n + 1..], id), rows, n, at);
        PrependAscending(n, at);
        at := [n] + at;
      }
    }
  }

  lemma PrependRow(kept: seq<Row>, rows: seq<Row>, n: nat, at: seq<nat>)
    requires AreAt(kept, rows, at) && n < |rows| && forall k <- at :: n < k
    ensures AreAt([rows[n]] + kept, rows, [n] + at)
  {
    PrependAscending(n, at);
    var all := [n] + at;
    forall j | 0 <= j < |all|
      ensures all[j] < |rows| && rows[all[j]] == ([rows[n]] + kept)[j]
    {
      if j > 0 {
        assert all[j] == at[j - 1] && ([rows[n]] + kept)[j] == kept[j - 1];
      }
    }
  }

  /** The positions of a scope's rows. */
  lemma ScopeRowsAt(scope: Scope, db: Db) returns (at: seq<nat>)
    ensures var rows := Rows(db, LOOT_FILES);
      && AreAt(LootRows(scope, db), rows, at)
      && forall k: nat :: k in at <==> k < |rows| && Concerns(scope, rows[k])
  {
    var rows := Rows(db, LOOT_FILES);
    hide OfEngagement;
    match scope
    case OneEngagement(Some(id)) =>
      assert rows[0..] == rows;
      at := OfEngagementAt(rows, id, 0);
    case DatabaseOnly =>
      at := [];
    case _ =>
      at := seq(|rows|, i => i);
      assert forall k: nat :: k < |rows| ==> at[k] == k;
  }

  lemma LootIsArchived(scope: Scope, db: Db, objects: map<nat, Bytes>)
    ensures LootArchived(scope, LootEntries(LootRows(scope, db), objects), Rows(db, LOOT_FILES), objects)
  {
    var at := ScopeRowsAt(scope, db);
    hide LootRows, LootEntries, HasSome, Lists, AreAt, Concerns;
    var picked := EntriesArePicked(Rows(db, LOOT_FILES), LootRows(scope, db), at, objects);
  }

  // ---------------------------------------------------------------- JSON entries

  /** A JSON list of rows, column for column but for those left out. */
  ghost predicate IsListOf(codec: Codec, list: seq<JsonRow>, rows: seq<Row>, without: set<string>) {
    && |list| == |rows|
    && forall k :: 0 <= k < |rows| ==>
         list[k].Keys == rows[k].Keys - without && forall c <- list[k] :: list[k][c] == SerializeValue(codec, rows[k][c])
  }

  /** Every table under its name, and nothing else. */
  ghost predicate IsExportOf(codec: Codec, schema: Schema, manifest: Manifest, db: Db) {
    && manifest.Keys == TableNames(schema)
    && forall name <- manifest :: IsListOf(codec, manifest[name], Rows(db, name), {})
  }

  lemma {:induction false} SerializedAt(codec: Codec, rows: seq<Row>, k: nat)
    requires k < |rows|
    ensures SerializeRows(codec, rows)[k] == SerializeRow(codec, rows[k])
  {
    hide SerializeRow;
    if k > 0 {
      SerializedAt(codec, rows[1..], k - 1);
    }
  }

  lemma SerializedIsList(codec: Codec, rows: seq<Row>)
    ensures IsListOf(codec, SerializeRows(codec, rows), rows, {})
  {
    hide SerializeValue;
    forall k | 0 <= k < |rows|
      ensures SerializeRows(codec, rows)[k] == SerializeRow(codec, rows[k])
    {
      SerializedAt(codec, rows, k);
    }
  }

  lemma MetadataIsList(codec: Codec, rows: seq<Row>)
    ensures IsListOf(codec, SerializeRows(codec, Metadata(rows)), rows, {"content_oid", "encrypted_content"})
  {
    hide SerializeValue;
    var bare := Metadata(rows);
    forall k | 0 <= k < |rows|
      ensures SerializeRows(codec, bare)[k] == SerializeRow(codec, bare[k])
    {
      SerializedAt(codec, bare, k);
    }
  }

  lemma {:induction false} ExportUpToIs(codec: Codec, schema: Schema, n: nat, db: Db)
    requires n <= |schema|
    ensures ExportUpTo(codec, schema, n, db).Keys == set i | 0 <= i < n :: schema[i].name
    ensures forall name <- ExportUpTo(codec, schema, n, db) ::
      ExportUpTo(codec, schema, n, db)[name] == SerializeRows(codec, Rows(db, name))
  {
    if n > 0 {
      ExportUpToIs(codec, schema, n - 1, db);
      assert (set i | 0 <= i < n :: schema[i].name) == (set i | 0 <= i < n - 1 :: schema[i].name) + {schema[n - 1].name};
    }
  }

  lemma ExportIs(codec: Codec, schema: Schema, db: Db)
    ensures IsExportOf(codec, schema, ExportOf(codec, schema, db), db)
  {
    ExportUpToIs(codec, schema, |schema|, db);
    hide SerializeRows, IsListOf, ExportUpTo;
    forall name | name in ExportOf(codec, schema, db)
      ensures IsListOf(codec, ExportOf(codec, schema, db)[name], Rows(db, name), {})
    {
      SerializedIsList(codec, Rows(db, name));
    }
  }

  /** The rows of one engagement, in their order, a loot file's without its two content columns. */
  ghost predicate IsOwnList(codec: Codec, name: string, list: seq<JsonRow>, rows: seq<Row>, id: int) {
    exists own, at :: AreAt(own, rows, at)
      && (forall k: nat :: k in at <==> k < |rows| && Cell(rows[k], "engagement_id") == Int(id))
      && IsListOf(codec, list, own, if name == "loot_files" then {"content_oid", "encrypted_content"} else {})
  }

  /** The records an engagement's archive lists. */
  predicate IsListed(name: string) {
    name in ["credentials", "iocs", "infrastructure_nodes", "infrastructure_edges", "killchain_entries", "findings",
             "activity_log_entries", "todos", "loot_files"]
  }

  ghost predicate IsRowOf(codec: Codec, json: JsonRow, rows: seq<Row>, id: int) {
    exists row <- rows :: Cell(row, "id") == Int(id) && IsListOf(codec, [json], [row], {})
  }

  /** An engagement as JSON: its row, and of each of nine lists the rows that are its own. */
  ghost predicate IsEngagementExport(codec: Codec, content: Content, db: Db, id: int) {
    && content.EngagementExport?
    && IsRowOf(codec, content.engagement, Rows(db, "engagements"), id)
    && (forall name :: name in content.lists <==> IsListed(name))
    && forall name <- content.lists :: IsOwnList(codec, name, content.lists[name], Rows(db, name), id)
  }

  lemma OwnListIs(codec: Codec, name: string, db: Db, id: int)
    ensures IsOwnList(codec, name, EngagementList(codec, db, name, id), Rows(db, name), id)
  {
    var rows := Rows(db, name);
    assert rows[0..] == rows;
    var own := OfEngagement(rows, id);
    var at := OfEngagementAt(rows, id, 0);
    SerializedIsList(codec, own);
    MetadataIsList(codec, own);
    hide SerializeRows, OfEngagement, AreAt, IsListOf;
    assert AreAt(own, rows, at);
  }

  lemma EngagementExportIs(codec: Codec, db: Db, row: Row, id: int)
    requires row in Rows(db, "engagements") && Cell(row, "id") == Int(id)
    ensures IsEngagementExport(codec, EngagementExport(SerializeRow(codec, row),
                                                       EngagementLists(codec, db, ENGAGEMENT_TABLES, id)), db, id)
  {
    var lists := EngagementLists(codec, db, ENGAGEMENT_TABLES, id);
    RowIs(codec, Rows(db, "engagements"), row, id);
    forall name
      ensures name in lists <==> IsListed(name)
    {
    }
    hide EngagementList, EngagementLists, IsOwnList, IsRowOf, IsListed;
    forall name | name in lists
      ensures IsOwnList(codec, name, lists[name], Rows(db, name), id)
    {
      OwnListIs(codec, name, db, id);
    }
  }

  lemma RowIs(codec: Codec, rows: seq<Row>, row: Row, id: int)
    requires row in rows && Cell(row, "id") == Int(id)
    ensures IsRowOf(codec, SerializeRow(codec, row), rows, id)
  {
    SerializedIsList(codec, [row]);
    SerializedAt(codec, [row], 0);
    hide SerializeRow, SerializeRows, IsListOf;
    assert SerializeRows(codec, [row]) == [SerializeRow(codec, row)];
  }

  // ---------------------------------------------------------------- whole archives

  /** The scopes that export the whole database. */
  predicate ExportsDatabase(scope: Scope) {
    scope == FullVault || scope == DatabaseOnly
  }

  /** The scope is one engagement, and it exists. */
  predicate ExportsEngagement(scope: Scope, db: Db) {
    scope.OneEngagement? && scope.id.Some? && exists row <- Rows(db, "engagements") :: Cell(row, "id") == Int(scope.id.value)
  }

  /**
    A whole archive: the JSON entry of the scope, if it has one, and then the
    loot files the scope is about.
   */
  ghost predicate IsArchiveOf(scope: Scope, codec: Codec, schema: Schema, db: Db, objects: map<nat, Bytes>, zip: Zip) {
    var json := if ExportsDatabase(scope) || ExportsEngagement(scope, db) then 1 else 0;
    && json <= |zip|
    && LootArchived(scope, zip[json..], Rows(db, "loot_files"), objects)
    && (ExportsDatabase(scope) ==>
          zip[0].name == "database/export.json" && zip[0].content.Export?
          && IsExportOf(codec, schema, zip[0].content.manifest, db))
    && (ExportsEngagement(scope, db) ==>
          zip[0].name == "engagement/manifest.json" && IsEngagementExport(codec, zip[0].content, db, scope.id.value))
    && (HasEntry(zip, "database/export.json") <==> ExportsDatabase(scope))
    && (HasEntry(zip, "engagement/manifest.json") <==> ExportsEngagement(scope, db))
  }

  lemma JsonEntryIs(scope: Scope, codec: Codec, schema: Schema, db: Db)
    ensures var zip := JsonEntry(scope, codec, schema, db);
      && |zip| == (if ExportsDatabase(scope) || ExportsEngagement(scope, db) then 1 else 0)
      && (ExportsDatabase(scope) ==>
            zip[0].name == "database/export.json" && zip[0].content.Export?
            && IsExportOf(codec, schema, zip[0].content.manifest, db))
      && (ExportsEngagement(scope, db) ==>
            zip[0].name == "engagement/manifest.json" && IsEngagementExport(codec, zip[0].content, db, scope.id.value))
  {
    hide IsExportOf, IsEngagementExport, ExportOf, EngagementLists, EngagementRow;
    ExportIs(codec, schema, db);
    if scope.OneEngagement? && scope.id.Some? {
      var row := EngagementRow(Rows(db, ENGAGEMENTS), scope.id.value);
      if row.Some? {
        EngagementExportIs(codec, db, row.value, scope.id.value);
      }
    }
  }

  lemma LootNamesStart(entries: Zip, rows: seq<Row>, objects: map<nat, Bytes>, scope: Scope, i: nat)
    requires LootArchived(scope, entries, rows, objects) && i < |entries|
    ensures entries[i].name != "database/export.json" && entries[i].name != "engagement/manifest.json"
  {
    hide HasSome, Concerns, HasContent, Printed;
    var picked :| Lists(entries, rows, picked, objects);
    var row := rows[picked[i]];
    assert IsEntryOf(entries[i], row, objects);
    StartsAlike("loot_storage/", Printed(Cell(row, "engagement_id")), "/", Printed(Cell(row, "id")), "_",
                Printed(Cell(row, "original_filename")), ".enc");
    assert "database/export.json"[0] == 'd' && "engagement/manifest.json"[0] == 'e';
  }

  lemma StartsAlike(a: string, b: string, c: string, d: string, e: string, f: string, g: string)
    requires a != []
    ensures (a + b + c + d + e + f + g)[0] == a[0]
  {
  }

  lemma OnlyLootNames(entries: Zip, rows: seq<Row>, objects: map<nat, Bytes>, scope: Scope)
    requires LootArchived(scope, entries, rows, objects)
    ensures !HasEntry(entries, "database/export.json") && !HasEntry(entries, "engagement/manifest.json")
  {
    hide LootArchived;
    forall i | 0 <= i < |entries|
      ensures entries[i].name != "database/export.json" && entries[i].name != "engagement/manifest.json"
    {
      LootNamesStart(entries, rows, objects, scope, i);
    }
  }

  lemma HasEntryIn(json: Zip, loot: Zip, name: string)
    ensures HasEntry(json + loot, name) <==> HasEntry(json, name) || HasEntry(loot, name)
  {
    if i :| 0 <= i < |json| && json[i].name == name {
      assert (json + loot)[i].name == name;
    }
    if i :| 0 <= i < |loot| && loot[i].name == name {
      assert (json + loot)[|json| + i].name == name;
    }
  }

  lemma ArchiveIs(scope: Scope, codec: Codec, schema: Schema, db: Db, objects: map<nat, Bytes>)
    ensures IsArchiveOf(scope, codec, schema, db, objects, ArchiveOf(scope, codec, schema, db, objects))
  {
    var json, loot := JsonEntry(scope, codec, schema, db), LootEntries(LootRows(scope, db), objects);
    JsonEntryIs(scope, codec, schema, db);
    LootIsArchived(scope, db, objects);
    OnlyLootNames(loot, Rows(db, LOOT_FILES), objects, scope);
    HasEntryIn(json, loot, "database/export.json");
    HasEntryIn(json, loot, "engagement/manifest.json");
    hide JsonEntry, LootEntries, LootRows, LootArchived, IsExportOf, IsEngagementExport, ExportsEngagement;
    assert (json + loot)[|json|..] == loot;
    assert json != [] ==> (json + loot)[0] == json[0];
    NamedOnce(json);
  }

  lemma NamedOnce(json: Zip)
    requires |json| <= 1
    ensures json != [] && json[0].name == "database/export.json" ==>
              HasEntry(json, "database/export.json") && !HasEntry(json, "engagement/manifest.json")
    ensures json != [] && json[0].name == "engagement/manifest.json" ==>
              HasEntry(json, "engagement/manifest.json") && !HasEntry(json, "database/export.json")
    ensures json == [] ==> !HasEntry(json, "engagement/manifest.json") && !HasEntry(json, "database/export.json")
  {
    assert "database/export.json"[0] != "engagement/manifest.json"[0];
  }
}
