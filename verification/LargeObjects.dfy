/** Postgres Large Objects: byte strings named by oid, read and written through positioned handles. */
module LargeObjects {
  import opened ByteStrings

  class PgConn {
    var objects: map<nat, Bytes>
    var nextOid: nat

    ghost predicate Valid()
      reads this
    {
      forall oid :: oid in objects ==> oid < nextOid
    }

    constructor ()
      ensures Valid() && objects == map[]
    {
      objects := map[];
      nextOid := 1;
    }

    /** `lobject(mode="wb")`: a new empty object and a handle at its start. */
    method Create() returns (lo: LObject)
      requires Valid()
      modifies this
      ensures Valid() && fresh(lo) && lo.conn == this && lo.pos == 0
      ensures lo.oid == old(nextOid) && lo.oid !in old(objects) && nextOid == old(nextOid) + 1
      ensures objects == old(objects)[lo.oid := []]
    {
      var oid := nextOid;
      nextOid := nextOid + 1;
      objects := objects[oid := []];
      lo := new LObject(this, oid);
    }

    /** `read_large_object_raw` (the caller has checked that the object exists). */
    method ReadRaw(oid: nat) returns (raw: Bytes)
      requires oid in objects
      ensures raw == objects[oid]
    {
      var lo := new LObject(this, oid);
      raw := lo.Read(|objects[oid]|);
    }

    /** `write_large_object_raw`: the bytes, unchanged, under an oid that was not in use. */
    method WriteRaw(raw: Bytes) returns (oid: nat)
      requires Valid()
      modifies this
      ensures Valid() && oid == old(nextOid) && oid !in old(objects) && nextOid == old(nextOid) + 1
      ensures objects == old(objects)[oid := raw]
    {
      var lo := Create();
      oid := lo.oid;
      lo.Write(raw);
      assert objects[oid] == [] + raw == raw;
    }
  }

  class LObject {
    const conn: PgConn
    const oid: nat
    var pos: nat

    constructor (conn: PgConn, oid: nat)
      ensures this.conn == conn && this.oid == oid && pos == 0
    {
      this.conn := conn;
      this.oid := oid;
      this.pos := 0;
    }

    /** Overwrites from the handle's position and extends the object as needed. */
    method Write(data: Bytes)
      requires conn.Valid() && oid in conn.objects && pos <= |conn.objects[oid]|
      modifies this, conn`objects
      ensures conn.Valid() && pos == old(pos) + |data|
      ensures var was := old(conn.objects[oid]);
        conn.objects == old(conn.objects)[oid := was[..old(pos)] + data + Drop(was, pos)]
      ensures old(pos == |conn.objects[oid]|) ==>
        conn.objects == old(conn.objects)[oid := old(conn.objects[oid]) + data] && pos == |conn.objects[oid]|
    {
      var was := conn.objects[oid];
      var end := pos + |data|;
      conn.objects := conn.objects[oid := was[..pos] + data + Drop(was, end)];
      assert pos == |was| ==> was[..pos] + data + Drop(was, end) == was + data;
      pos := end;
    }

    /** At most n bytes from the handle's position. */
    method Read(n: nat) returns (data: Bytes)
      requires oid in conn.objects && pos <= |conn.objects[oid]|
      modifies this
      ensures pos == old(pos) + |data| <= |conn.objects[oid]|
      ensures var rest := conn.objects[oid][old(pos)..];
        data == Take(rest, n) && conn.objects[oid][pos..] == Drop(rest, n)
    {
      var all := conn.objects[oid];
      var end := if pos + n <= |all| then pos + n else |all|;
      data := all[pos..end];
      pos := end;
    }
  }
}
