/**
  What a backup archive is: a JSON export of every table and one entry for each
  loot blob, named so that the row it belongs to can be read back from the name.
 */
module Archive {
  import opened Wrappers
  import opened ByteStrings
  import opened Text
  import opened Numerals
  import opened Database

  datatype Json = JNull | JInt(n: int) | JText(s: string) | JBool(b: bool)

  type JsonRow = map<string, Json>

  type Manifest = map<string, seq<JsonRow>>

  /** Base64 and ISO 8601, each an encoder with its partial inverse. */
  datatype Codec = Codec(
    b64encode: Bytes -> string, b64decode: string -> Option<Bytes>,
    isoDateTime: int -> string, parseDateTime: string -> Option<int>,
    isoDate: int -> string, parseDate: string -> Option<int>)
  {
    ghost predicate Lawful() {
      && (forall b: Bytes :: b64decode(b64encode(b)) == Some(b))
      && (forall t: int :: parseDateTime(isoDateTime(t)) == Some(t))
      && (forall d: int :: parseDate(isoDate(d)) == Some(d))
    }
  }

  /** The database as JSON, one engagement as JSON, or bytes that are neither. */
  datatype Content =
    | Export(manifest: Manifest)
    | EngagementExport(engagement: JsonRow, lists: Manifest)
    | Raw(bytes: Bytes)

  /** The lists of rows in a JSON entry; None when it is no JSON. */
  function JsonTables(content: Content): Option<Manifest> {
    match content
    case Export(manifest) => Some(manifest)
    case EngagementExport(_, lists) => Some(lists)
    case Raw(_) => None
  }

  datatype Entry = Entry(name: string, content: Content)

  /** A zip archive: its entries in the order they were written. */
  type Zip = seq<Entry>

  const EXPORT_NAME := "database/export.json"
  const ENGAGEMENT_MANIFEST := "engagement/manifest.json"
  const LOOT_PREFIX := "loot_storage/"

  predicate HasEntry(zip: Zip, name: string) {
    exists i :: 0 <= i < |zip| && zip[i].name == name
  }

  /** `zf.read(name)`: the entry written last under a name is the one that is read. */
  function ReadEntry(zip: Zip, name: string): (content: Content)
    requires HasEntry(zip, name)
  {
    var last := zip[|zip| - 1];
    if last.name == name then last.content
    else
      assert HasEntry(zip[..|zip| - 1], name) by {
        var i :| 0 <= i < |zip| && zip[i].name == name;
        assert zip[..|zip| - 1][i].name == name;
      }
      ReadEntry(zip[..|zip| - 1], name)
  }

  /** What is read under a name is the content of the last entry that has it. */
  lemma {:induction false} ReadIsLast(zip: Zip, name: string, i: nat)
    requires i < |zip| && zip[i].name == name && forall j :: i < j < |zip| ==> zip[j].name != name
    ensures HasEntry(zip, name) && ReadEntry(zip, name) == zip[i].content
  {
    if i < |zip| - 1 {
      ReadIsLast(zip[..|zip| - 1], name, i);
    }
  }

  // ---------------------------------------------------------------- values

  function SerializeValue(codec: Codec, value: Value): Json {
    match value
    case Null => JNull
    case Int(n) => JInt(n)
    case Text(s) => JText(s)
    case Bool(b) => JBool(b)
    case Binary(bytes) => JText(codec.b64encode(bytes))
    case DateTime(instant) => JText(codec.isoDateTime(instant))
    case Date(day) => JText(codec.isoDate(day))
  }

  function SerializeRow(codec: Codec, row: Row): JsonRow {
    map c | c in row :: SerializeValue(codec, row[c])
  }

  function SerializeRows(codec: Codec, rows: seq<Row>): (r: seq<JsonRow>)
    ensures |r| == |rows|
  {
    if rows == [] then [] else [SerializeRow(codec, rows[0])] + SerializeRows(codec, rows[1..])
  }

  /** By column type; None stands for the exception a malformed value raises. */
  function DeserializeValue(codec: Codec, json: Json, colType: ColType): Option<Value> {
    if json == JNull then Some(Null)
    else
      match colType
      case BinaryCol =>
        if !json.JText? then None
        else (match codec.b64decode(json.s) case None => None case Some(bytes) => Some(Binary(bytes)))
      case DateTimeCol =>
        if !json.JText? then None
        else (match codec.parseDateTime(json.s) case None => None case Some(t) => Some(DateTime(t)))
      case DateCol =>
        if !json.JText? then None
        else (match codec.parseDate(json.s) case None => None case Some(d) => Some(Date(d)))
      case _ =>
        Some(match json case JInt(n) => Int(n) case JText(s) => Text(s) case JBool(b) => Bool(b))
  }

  predicate Typed(value: Value, colType: ColType) {
    match value
    case Null => true
    case Int(n) => colType.IntCol? && Is64Bit(n)
    case Text(_) => colType.TextCol?
    case Bool(_) => colType.BoolCol?
    case Binary(_) => colType.BinaryCol?
    case DateTime(_) => colType.DateTimeCol?
    case Date(_) => colType.DateCol?
  }

  lemma ValueRoundTrip(codec: Codec, value: Value, colType: ColType)
    requires codec.Lawful() && Typed(value, colType)
    ensures DeserializeValue(codec, SerializeValue(codec, value), colType) == Some(value)
  {
  }

  // ---------------------------------------------------------------- loot entry names

  /** How a column value prints inside an f-string. */
  function Printed(value: Value): string {
    match value
    case Int(n) => IntToString(n)
    case Text(s) => s
    case _ => "None"
  }

  function ArcName(engagementId: Value, lootId: Value, filename: Value): string {
    LOOT_PREFIX + Printed(engagementId) + "/" + Printed(lootId) + "_" + Printed(filename) + ".enc"
  }

  /** Where an entry name files a blob; Unreadable is a name whose digits `int` refuses. */
  datatype Filing = Unfiled | FiledUnder(id: nat) | Unreadable

  /** The number before the first "_" of a base name. */
  function FilingOfBasename(basename: string): Filing {
    var lootId := BeforeFirst(basename, '_');
    if !AllAnyDigits(lootId) then Unfiled
    else match ParseInt(lootId) case None => Unreadable case Some(id) => FiledUnder(id)
  }

  function FilingOf(name: string): Filing {
    if !StartsWith(name, LOOT_PREFIX) || EndsWith(name, "/") then Unfiled
    else FilingOfBasename(AfterLast(name, '/'))
  }

  /** The loot id an archive entry is filed under, if it is a loot entry at all. */
  function LootIdOf(name: string): Option<nat> {
    match FilingOf(name) case FiledUnder(id) => Some(id) case _ => None
  }

  /** Every loot entry's name can be read; one that cannot makes the extraction raise. */
  predicate NamesReadable(zip: Zip) {
    forall i :: 0 <= i < |zip| ==> !FilingOf(zip[i].name).Unreadable?
  }

  /**
    An entry is filed under an id exactly when it stands below "loot_storage/",
    is no directory, and the digits between its last slash and the first
    underscore after it are those of the id.
   */
  lemma FiledIff(name: string, id: nat)
    ensures FilingOf(name) == FiledUnder(id) <==>
      && "loot_storage/" <= name && name[|name| - 1] != '/'
      && var digits := BeforeFirst(AfterLast(name, '/'), '_');
      AllAnyDigits(digits) && ParseInt(digits) == Some(id)
  {
    hide AllAnyDigits, ParseInt;
    if LOOT_PREFIX <= name {
      assert name[|name| - 1..] == [name[|name| - 1]];
    }
  }

  lemma Regroup3(a: string, b: string, c: string, d: string)
    ensures a + b + c + d == a + (b + c + d)
  {
  }

  lemma PathEnds(dir: string, rest: string)
    requires rest != [] && rest[|rest| - 1] != '/'
    ensures StartsWith(dir + rest, dir) && !EndsWith(dir + rest, "/")
  {
    var path := dir + rest;
    assert path[|path| - 1..][0] == path[|path| - 1] == rest[|rest| - 1];
  }

  lemma PathShape(dir: string, sub: string, base: string)
    requires base != [] && base[|base| - 1] != '/'
    ensures var path := dir + sub + "/" + base;
      StartsWith(path, dir) && !EndsWith(path, "/") && AfterLast(path, '/') == AfterLast(base, '/')
  {
    hide StartsWith, EndsWith, AfterLast;
    Regroup3(dir, sub, "/", base);
    LastOfConcat(sub + "/", base);
    PathEnds(dir, sub + "/" + base);
    assert "/" == ['/'];
    AfterLastAt(dir + sub, '/', base);
  }

  /** Only the base name, the part after the last "/", decides where a loot entry is filed. */
  lemma FiledByBasename(eng: string, base: string)
    requires base != [] && base[|base| - 1] != '/'
    ensures FilingOf(LOOT_PREFIX + eng + "/" + base) == FilingOfBasename(AfterLast(base, '/'))
  {
    PathShape(LOOT_PREFIX, eng, base);
  }

  lemma ArcNameIsLootEntry(engagementId: Value, lootId: Value, filename: Value)
    ensures FilingOf(ArcName(engagementId, lootId, filename))
         == FilingOfBasename(AfterLast(Printed(lootId) + "_" + Printed(filename) + ".enc", '/'))
  {
    var eng, own, file := Printed(engagementId), Printed(lootId), Printed(filename);
    var base := own + "_" + file + ".enc";
    Regroup(LOOT_PREFIX + eng + "/", own, "_", file, ".enc");
    LastOfConcat(own + "_" + file, ".enc");
    FiledByBasename(eng, base);
  }

  lemma Regroup(a: string, b: string, c: string, d: string, e: string)
    ensures a + b + c + d + e == a + (b + c + d + e)
  {
  }

  lemma LastOfConcat(a: string, b: string)
    requires b != []
    ensures (a + b) != [] && (a + b)[|a + b| - 1] == b[|b| - 1]
  {
  }

  lemma OwnIdOfBasename(id: nat, filename: string)
    requires Is64Bit(id)
    ensures FilingOfBasename(ToDecimal(id) + "_" + filename + ".enc") == FiledUnder(id)
  {
    IdRoundTrip(id);
    hide ParseInt;
    assert '_' !in ToDecimal(id);
    assert ToDecimal(id) + "_" + filename + ".enc" == ToDecimal(id) + ['_'] + (filename + ".enc");
    BeforeFirstAt(ToDecimal(id), '_', filename + ".enc");
  }

  /**
    A loot entry is filed under its own id when the file name holds no "/"; when
    it holds one, the text after the last "/" decides.
   */
  lemma ArcNameFiling(engagementId: Value, id: nat, filename: string)
    requires Is64Bit(id)
    ensures FilingOf(ArcName(engagementId, Int(id), Text(filename))) ==
      if '/' in filename then FilingOfBasename(AfterLast(filename, '/') + ".enc") else FiledUnder(id)
  {
    hide FilingOf, ArcName, FilingOfBasename, IntToString, AllDigits;
    ArcNameIsLootEntry(engagementId, Int(id), Text(filename));
    PrintedId(id);
    if '/' in filename {
      AfterLastSuffix(filename, ToDecimal(id) + "_", ".enc");
    } else {
      NoSlash(ToDecimal(id), filename);
      OwnIdOfBasename(id, filename);
    }
  }

  lemma PrintedId(id: nat)
    ensures Printed(Int(id)) == ToDecimal(id)
  {
  }

  lemma NoSlash(digits: string, filename: string)
    requires AllDigits(digits) && '/' !in filename
    ensures '/' !in digits + "_" + filename + ".enc"
  {
  }

  lemma {:induction false} AfterLastSuffix(s: string, head: string, tail: string)
    requires '/' in s && '/' !in tail
    ensures AfterLast(head + s + tail, '/') == AfterLast(s, '/') + tail
  {
    var i := LastSlash(s);
    var h, t := s[..i], s[i + 1..];
    assert s == h + ['/'] + t;
    AfterLastAt(h, '/', t);
    assert head + s + tail == (head + h) + ['/'] + (t + tail);
    AfterLastAt(head + h, '/', t + tail);
  }

  function LastSlash(s: string): (i: nat)
    requires '/' in s
    ensures i < |s| && s[i] == '/' && '/' !in s[i + 1..]
  {
    if s[|s| - 1] == '/' then |s| - 1
    else
      assert s == s[..|s| - 1] + [s[|s| - 1]];
      var i := LastSlash(s[..|s| - 1]);
      assert s[i + 1..] == s[..|s| - 1][i + 1..] + [s[|s| - 1]];
      i
  }

  // ---------------------------------------------------------------- loot rows

  /** `_read_loot_blob`: the object behind content_oid, or else the inline bytes. */
  function LootBlob(row: Row, objects: map<nat, Bytes>): Option<Bytes> {
    match Cell(row, "content_oid")
    case Int(n) => if n >= 0 && n in objects then Some(objects[n]) else None
    case _ => (match Cell(row, "encrypted_content") case Binary(b) => Some(b) case _ => None)
  }

  /** The row's content_oid, when it has one, names a Large Object. */
  predicate BlobReadable(row: Row, objects: map<nat, Bytes>) {
    match Cell(row, "content_oid")
    case Int(n) => n >= 0 && n in objects
    case _ => true
  }

  function LootName(row: Row): string {
    ArcName(Cell(row, "engagement_id"), Cell(row, "id"), Cell(row, "original_filename"))
  }

  predicate HasBlob(row: Row, objects: map<nat, Bytes>) {
    var blob := LootBlob(row, objects);
    blob.Some? && blob.value != []
  }

  function LootEntries(rows: seq<Row>, objects: map<nat, Bytes>): Zip {
    if rows == [] then []
    else
      (if HasBlob(rows[0], objects) then [Entry(LootName(rows[0]), Raw(LootBlob(rows[0], objects).value))] else [])
      + LootEntries(rows[1..], objects)
  }

  lemma {:induction false} LootEntriesSnoc(rows: seq<Row>, row: Row, objects: map<nat, Bytes>)
    ensures LootEntries(rows + [row], objects) == LootEntries(rows, objects) + LootEntries([row], objects)
  {
    hide LootName, LootBlob, HasBlob;
    if rows == [] {
      assert rows + [row] == [row];
    } else {
      assert (rows + [row])[1..] == rows[1..] + [row];
      LootEntriesSnoc(rows[1..], row, objects);
    }
  }
}
