/** One engagement as a backup exports it: its row, its lists of records, its loot files without their contents. */
module EngagementArchive {
  import opened Wrappers
  import opened Database
  import opened Archive

  const ENGAGEMENTS := "engagements"

  /** The relations an engagement's archive lists. */
  const ENGAGEMENT_TABLES := ["credentials", "iocs", "infrastructure_nodes", "infrastructure_edges",
                              "killchain_entries", "findings", "activity_log_entries", "todos", LOOT_FILES]

  /** `filter_by(engagement_id=id)` */
  function OfEngagement(rows: seq<Row>, id: int): (r: seq<Row>)
    ensures forall row :: row in r <==> row in rows && Cell(row, "engagement_id") == Int(id)
  {
    if rows == [] then []
    else (if Cell(rows[0], "engagement_id") == Int(id) then [rows[0]] else []) + OfEngagement(rows[1..], id)
  }

  /** `Engagement.query.get(id)` */
  function EngagementRow(rows: seq<Row>, id: int): (r: Option<Row>)
    ensures r.Some? ==> r.value in rows && Cell(r.value, "id") == Int(id)
    ensures r.None? ==> forall row :: row in rows ==> Cell(row, "id") != Int(id)
  {
    if rows == [] then None
    else if Cell(rows[0], "id") == Int(id) then Some(rows[0])
    else EngagementRow(rows[1..], id)
  }

  /** A loot row without the two columns that hold or name its contents. */
  function Metadata(rows: seq<Row>): (r: seq<Row>)
    ensures |r| == |rows|
    ensures forall k :: 0 <= k < |rows| ==> r[k] == rows[k] - CONTENT_COLUMNS
  {
    if rows == [] then [] else [rows[0] - CONTENT_COLUMNS] + Metadata(rows[1..])
  }

  function EngagementList(codec: Codec, db: Db, name: string, id: int): seq<JsonRow> {
    var rows := OfEngagement(Rows(db, name), id);
    SerializeRows(codec, if name == LOOT_FILES then Metadata(rows) else rows)
  }

  function EngagementLists(codec: Codec, db: Db, names: seq<string>, id: int): (m: Manifest)
    ensures forall name :: name in m <==> name in names
    ensures forall name :: name in names ==> m[name] == EngagementList(codec, db, name, id)
  {
    if names == [] then map[]
    else EngagementLists(codec, db, names[1..], id)[names[0] := EngagementList(codec, db, names[0], id)]
  }
}
