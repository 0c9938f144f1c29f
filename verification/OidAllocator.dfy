/**
 How a catalog builder hands out OIDs.  Four builders (pg_class, pg_namespace, pg_attribute and
 pg_database) share one counter and one cache; each walks its own part of the live catalog,
 resolves an OID per object, and then reconciles the cache in its own way.  This module gives one
 builder call as a function of the state; OidBuilders has the loops that compute it.
 */
module OidAllocator {
  import opened Wrappers

  const U32: int := 0x1_0000_0000
  const FIRST_DYNAMIC: int := 16384
  const PG_CATALOG_OID: int := 11

  type Oid = o: int | 0 <= o < U32

  datatype Key =
    | Catalog(catalog: string)
    | Schema(catalog: string, schema: string)
    | Table(catalog: string, schema: string, table: string)

  // ---------- What a builder sees of the catalog ----------

  /** The answer of one listing call: an error, no such parent, or the children. */
  datatype Listing<T> = Failed | Absent | Listed(items: seq<T>)

  /** `columns` is the answer of `table_schema`; `typeReadable` says whether `table_type` succeeds. */
  datatype TableInfo = TableInfo(name: string, columns: Listing<string>, typeReadable: bool)
  datatype SchemaInfo = SchemaInfo(name: string, tables: Listing<TableInfo>)
  datatype CatalogInfo = CatalogInfo(name: string, schemas: Listing<SchemaInfo>)

  /** None when listing the catalogs itself fails. */
  type View = Option<seq<CatalogInfo>>

  datatype Builder = PgClass | PgNamespace | PgAttribute | PgDatabase

  // ---------- Resolving one OID ----------

  function FixedOid(key: Key): Option<Oid> {
    if key.Schema? && key.schema == "pg_catalog" then Some(PG_CATALOG_OID) else None
  }

  /** The value of the u32 counter after `ticket` allocations; `fetch_add` wraps around. */
  function TicketOid(ticket: nat): Oid {
    (FIRST_DYNAMIC + ticket) % U32
  }

  /** `issued[t]` is the key that took ticket `t`; the counter stands at `TicketOid(|issued|)`. */
  function ResolveOid(key: Key, cache: map<Key, Oid>, issued: seq<Key>): (r: (Oid, seq<Key>)) {
    match FixedOid(key)
    case Some(oid) => (oid, issued)
    case None =>
      if key in cache then (cache[key], issued) else (TicketOid(|issued|), issued + [key])
  }

  /** OIDs are stored in Int32 columns with Rust's `as i32`. */
  function AsI32(oid: Oid): int {
    if oid < 0x8000_0000 then oid else oid - U32
  }

  // ---------- Rows ----------

  /** `subject` says which object the row describes; the rest are columns. */
  datatype Row =
    | ClassRow(subject: Key, oid: int, relname: string, relnamespace: int)
    | NamespaceRow(subject: Key, oid: int, nspname: string)
    | AttributeRow(subject: Key, oid: int, attname: string)  // oid is attrelid
    | DatabaseRow(subject: Key, oid: int, datname: string)

  function SchemaOf(key: Key): Key
    requires key.Table?
  {
    Schema(key.catalog, key.schema)
  }

  /** Every pair (object, OID column) a row shows to the client. */
  function Mentions(row: Row): set<(Key, int)> {
    {(row.subject, row.oid)} +
    (if row.ClassRow? && row.subject.Table? then {(SchemaOf(row.subject), row.relnamespace)} else {})
  }

  function RowFor(b: Builder, subject: Key, name: string, oid: Oid, parent: Oid): Row {
    match b
    case PgClass => ClassRow(subject, AsI32(oid), name, AsI32(parent))
    case PgNamespace => NamespaceRow(subject, AsI32(oid), name)
    case PgAttribute => AttributeRow(subject, AsI32(oid), name)
    case PgDatabase => DatabaseRow(subject, AsI32(oid), name)
  }

  function RowsFor(b: Builder, subject: Key, labels: seq<string>, oid: Oid, parent: Oid): seq<Row> {
    seq(|labels|, i requires 0 <= i < |labels| => RowFor(b, subject, labels[i], oid, parent))
  }

  // ---------- The walk of a builder ----------

  /** `schemaOid` is the OID of the schema visited last, the walk's local variable. */
  datatype Progress = Progress(issued: seq<Key>, taken: map<Key, Oid>, rows: seq<Row>,
                               schemaOid: Oid, failed: bool)

  function Start(issued: seq<Key>): Progress {
    Progress(issued, map[], [], 0, false)
  }

  /** Resolve `key`, remember its OID, and emit one row per label. */
  function Visit(b: Builder, cache: map<Key, Oid>, key: Key, labels: seq<string>, p: Progress): (r: Progress)
    ensures key in r.taken
    ensures labels == [] ==> r.rows == p.rows
    ensures |labels| == 1 ==> r.rows == p.rows + [RowFor(b, key, labels[0], r.taken[key], p.schemaOid)]
  {
    var (oid, issued) := ResolveOid(key, cache, p.issued);
    assert |labels| == 1 ==> RowsFor(b, key, labels, oid, p.schemaOid) == [RowFor(b, key, labels[0], oid, p.schemaOid)];
    Progress(issued, p.taken[key := oid], p.rows + RowsFor(b, key, labels, oid, p.schemaOid),
             if key.Schema? then oid else p.schemaOid, p.failed)
  }

  /** What a builder lists under a table; None when reading the table fails. */
  function TableLabels(b: Builder, t: TableInfo): Option<seq<string>> {
    match t.columns
    case Failed => None
    case Absent => Some([])
    case Listed(columns) =>
      if b.PgAttribute? then Some(columns) else if t.typeReadable then Some([t.name]) else None
  }

  function WalkTable(b: Builder, cache: map<Key, Oid>, c: string, s: string, t: TableInfo, p: Progress): Progress {
    match TableLabels(b, t)
    case None => Visit(b, cache, Table(c, s, t.name), [], p).(failed := true)
    case Some(labels) => Visit(b, cache, Table(c, s, t.name), labels, p)
  }

  function WalkTables(b: Builder, cache: map<Key, Oid>, c: string, s: string, ts: seq<TableInfo>,
                      p: Progress): Progress {
    if ts == [] || p.failed then p
    else WalkTables(b, cache, c, s, ts[1..], WalkTable(b, cache, c, s, ts[0], p))
  }

  function WalkSchema(b: Builder, cache: map<Key, Oid>, c: string, s: SchemaInfo, p: Progress): Progress {
    if b.PgNamespace? then Visit(b, cache, Schema(c, s.name), [s.name], p)
    else
      var q := if b.PgClass? then Visit(b, cache, Schema(c, s.name), [], p) else p;
      match s.tables
      case Failed => q.(failed := true)
      case Absent => q
      case Listed(ts) => WalkTables(b, cache, c, s.name, ts, q)
  }

  function WalkSchemas(b: Builder, cache: map<Key, Oid>, c: string, ss: seq<SchemaInfo>, p: Progress): Progress {
    if ss == [] || p.failed then p else WalkSchemas(b, cache, c, ss[1..], WalkSchema(b, cache, c, ss[0], p))
  }

  function WalkCatalog(b: Builder, cache: map<Key, Oid>, c: CatalogInfo, p: Progress): Progress {
    if b.PgDatabase? then Visit(b, cache, Catalog(c.name), [c.name], p)
    else
      var q := if b.PgClass? then Visit(b, cache, Catalog(c.name), [], p) else p;
      match c.schemas
      case Failed => q.(failed := true)
      case Absent => q
      case Listed(ss) => WalkSchemas(b, cache, c.name, ss, q)
  }

  function WalkCatalogs(b: Builder, cache: map<Key, Oid>, cs: seq<CatalogInfo>, p: Progress): Progress {
    if cs == [] || p.failed then p else WalkCatalogs(b, cache, cs[1..], WalkCatalog(b, cache, cs[0], p))
  }

  const POSTGRES := Catalog("postgres")

  function CatalogNames(cs: seq<CatalogInfo>): seq<string> {
    seq(|cs|, i requires 0 <= i < |cs| => cs[i].name)
  }

  /** pg_database always shows a "postgres" row, whether or not such a catalog exists. */
  predicate AddsPostgres(b: Builder, cs: seq<CatalogInfo>) {
    b.PgDatabase? && "postgres" !in CatalogNames(cs)
  }

  function Walk(b: Builder, cache: map<Key, Oid>, view: View, p: Progress): Progress {
    match view
    case None => p.(failed := true)
    case Some(cs) =>
      var q := WalkCatalogs(b, cache, cs, p);
      if !q.failed && AddsPostgres(b, cs) then Visit(b, cache, POSTGRES, ["postgres"], q) else q
  }

  // ---------- One builder call ----------

  /** Which entries of the old cache a builder's `retain` lets through. */
  predicate Retains(b: Builder, taken: map<Key, Oid>, k: Key) {
    match b
    case PgClass => false
    case PgNamespace => k.Catalog? || (k.Table? && SchemaOf(k) in taken)
    case PgAttribute => !k.Table? || k in taken
    case PgDatabase => !k.Catalog? && Catalog(k.catalog) in taken
  }

  function Reconcile(b: Builder, cache: map<Key, Oid>, taken: map<Key, Oid>): map<Key, Oid> {
    (map k | k in cache && Retains(b, taken, k) :: cache[k]) + taken
  }

  datatype State = State(cache: map<Key, Oid>, issued: seq<Key>)

  /** A call that fails midway has advanced the counter but leaves the cache alone. */
  function Step(b: Builder, view: View, st: State): (State, Option<seq<Row>>) {
    var p := Walk(b, st.cache, view, Start(st.issued));
    if p.failed then (State(st.cache, p.issued), None)
    else (State(Reconcile(b, st.cache, p.taken), p.issued), Some(p.rows))
  }
}
