/** The records the storage engine keeps, and the JSON codec as a parameter. */
module Records {
  import opened Bytes
  import opened Options

  /** A work unit; `rest` stands for the fields that storage only passes through. */
  datatype WorkUnit = WorkUnit(id: string, context: string, ts: Int64, rest: string)

  /** A context.  `meta` is `None` for Go's nil map. */
  datatype Context = Context(id: string, displayName: string, agents: seq<string>, pinned: seq<string>,
                             meta: Option<map<string, string>>, createdAt: int, updatedAt: int)

  datatype Lock = Lock(path: string, holder: string, expiresAt: int, lockId: string)

  /** `omitempty` drops an empty metadata map, so it comes back as a nil map. */
  function Normal(c: Context): Context {
    if c.meta == Some(map[]) then c.(meta := None) else c
  }

  /** `encoding/json` for the three record types. */
  datatype Codec = Codec(encUnit: WorkUnit -> seq<Byte>, decUnit: seq<Byte> -> Option<WorkUnit>,
                         encContext: Context -> seq<Byte>, decContext: seq<Byte> -> Option<Context>,
                         encLock: Lock -> seq<Byte>, decLock: seq<Byte> -> Option<Lock>)

  /** Decoding undoes encoding, up to the empty-map rule for contexts. */
  ghost predicate Faithful(c: Codec) {
    && (forall u: WorkUnit :: c.decUnit(c.encUnit(u)) == Some(u))
    && (forall x: Context :: c.decContext(c.encContext(x)) == Some(Normal(x)))
    && (forall x: Context :: c.encContext(Normal(x)) == c.encContext(x))
    && (forall l: Lock :: c.decLock(c.encLock(l)) == Some(l))
  }

  /** A value in the database: a JSON record, or a work unit id in the time index. */
  datatype Value = Json(bytes: seq<Byte>) | UnitId(id: string)

  type Database = map<string, Value>

  function Lookup(db: Database, k: string): Option<Value> {
    if k in db then Some(db[k]) else None
  }
}
