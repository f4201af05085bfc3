/**
 * The Geo SCADA server as the core sees it: query answers handed in as
 * sequences of rows, and a property store that can be read, checked for
 * writability and written. Transport, logon and query evaluation are not part
 * of this model.
 */
module Database {
  /** What a query returns: its rows when it succeeded, nothing otherwise. */
  datatype QueryResult<R> = Succeeded(rows: seq<R>) | NoDataFound | Failed

  /** A property of one database object: (object id, field key). */
  type Property = (int, string)

  /**
   * A property value as the tool re-reads it: `int.Parse(value.ToString())`
   * either yields a number or throws (also for a null value).
   */
  datatype Reading = Number(n: int) | NotNumber

  /**
   * The store. A property whose value comes from a template (inherited
   * configuration) is held by the template's property: `inherits` maps it to
   * that holder, and a read or a write of the property goes to the holder, so
   * one write changes every instance that inherits it. `writable` is what
   * IsPropertyWritable answers; `rejected` lists the properties whose write
   * throws (permission, template lock).
   */
  datatype Db = Db(
    values: map<Property, Reading>,
    inherits: map<Property, Property>,
    writable: set<Property>,
    rejected: set<Property>)
  {
    function Holder(p: Property): Property
    {
      if p in inherits then inherits[p] else p
    }

    function Read(p: Property): Reading
    {
      var h := Holder(p);
      if h in values then values[h] else NotNumber
    }

    /** The store after a successful write of `v` to `p`. */
    function Write(p: Property, v: int): (d: Db)
      ensures d.Read(p) == Number(v)
      ensures forall q :: Holder(q) != Holder(p) ==> d.Read(q) == Read(q)
      ensures d.inherits == inherits && d.writable == writable && d.rejected == rejected
    {
      this.(values := values[Holder(p) := Number(v)])
    }
  }

  /** The server connection (AdvConnection) with the three property calls the remap engine makes. */
  class Server {
    var db: Db

    constructor (db: Db)
      ensures this.db == db
    {
      this.db := db;
    }

    /** GetProperty followed by the integer parse. */
    method GetProperty(p: Property) returns (r: Reading)
      ensures r == db.Read(p)
    {
      r := db.Read(p);
    }

    method IsPropertyWritable(p: Property) returns (w: bool)
      ensures w <==> p in db.writable
    {
      w := p in db.writable;
    }

    /** SetProperty: `ok` is false when the call throws, and then nothing changes. */
    method SetProperty(p: Property, v: int) returns (ok: bool)
      modifies this
      ensures ok <==> p !in old(db).rejected
      ensures db == if ok then old(db).Write(p, v) else old(db)
    {
      ok := p !in db.rejected;
      if ok {
        db := db.Write(p, v);
      }
    }
  }
}
