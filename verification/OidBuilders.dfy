/** The shared counter and cache, and the loops of the four builders. */
module OidBuilders {
  import opened Wrappers
  import opened OidAllocator

  lemma RetainDatabases(cache: map<Key, Oid>, taken: map<Key, Oid>)
    ensures (map k | k in cache && !k.Catalog? && Catalog(k.catalog) in taken :: cache[k]) + taken ==
            Reconcile(PgDatabase, cache, taken)
  {
  }

  class PgCatalogSchemaProvider {
    var oidCounter: Oid
    var oidCache: map<Key, Oid>
    ghost var issued: seq<Key>  // who took each ticket, in order

    ghost predicate Valid()
      reads this
    {
      oidCounter == TicketOid(|issued|)
    }

    ghost function Abs(): State
      reads this
    {
      State(oidCache, issued)
    }

    constructor ()
      ensures Valid() && Abs() == State(map[], []) && oidCounter == 16384
    {
      oidCounter := FIRST_DYNAMIC;
      oidCache := map[];
      issued := [];
    }

    method Resolve(key: Key) returns (oid: Oid)
      requires Valid()
      modifies this`oidCounter, this`issued
      ensures Valid()
      ensures (oid, issued) == ResolveOid(key, oidCache, old(issued))
      ensures if key.Schema? && key.schema == "pg_catalog" then oid == 11 && issued == old(issued)
              else if key in oidCache then oid == oidCache[key] && issued == old(issued)
              else oid == old(oidCounter) && issued == old(issued) + [key]
    {
      match FixedOid(key) {
        case Some(fixed) => oid := fixed;
        case None =>
          if key in oidCache {
            oid := oidCache[key];
          } else {
            oid := oidCounter;
            oidCounter := (oidCounter + 1) % U32;
            issued := issued + [key];
          }
      }
    }

    /** The progress of a call, read off its local variables. */
    ghost function Now(taken: map<Key, Oid>, rows: seq<Row>, schemaOid: Oid): Progress
      reads this
    {
      Progress(issued, taken, rows, schemaOid, false)
    }

    /** The locals stand where the specification says, or the call has failed after the same tickets. */
    ghost predicate Agrees(ok: bool, taken: map<Key, Oid>, rows: seq<Row>, schemaOid: Oid, p: Progress)
      reads this
    {
      Valid() && issued == p.issued && ok == !p.failed && (ok ==> Now(taken, rows, schemaOid) == p)
    }

    // ---------- pg_namespace ----------

    method BuildPgNamespace(view: View) returns (rows: Option<seq<Row>>)
      requires Valid()
      modifies this
      ensures Valid()
      ensures (Abs(), rows) == Step(PgNamespace, view, old(Abs()))
    {
      if view.None? { return None; }
      var cs := view.value;
      ghost var total := WalkCatalogs(PgNamespace, oidCache, cs, Start(issued));
      var schemaOids: map<Key, Oid>, out: seq<Row> := map[], [];
      ghost var last: Oid := 0;
      assert cs[0..] == cs;
      for i := 0 to |cs|
        invariant Valid() && oidCache == old(oidCache)
        invariant total == WalkCatalogs(PgNamespace, oidCache, cs[i..], Now(schemaOids, out, last))
      {
        var c := cs[i];
        assert cs[i..][1..] == cs[i + 1..];
        match c.schemas {
          case Failed => return None;
          case Absent =>
          case Listed(ss) =>
            ghost var sub := WalkSchemas(PgNamespace, oidCache, c.name, ss, Now(schemaOids, out, last));
            assert ss[0..] == ss;
            for j := 0 to |ss|
              invariant Valid() && oidCache == old(oidCache)
              invariant sub == WalkSchemas(PgNamespace, oidCache, c.name, ss[j..], Now(schemaOids, out, last))
            {
              var key := Schema(c.name, ss[j].name);
              assert ss[j..][1..] == ss[j + 1..];
              var oid := Resolve(key);
              schemaOids := schemaOids[key := oid];
              out := out + [NamespaceRow(key, AsI32(oid), ss[j].name)];
              last := oid;
            }
        }
      }
      oidCache := (map k | k in oidCache && (k.Catalog? || (k.Table? && SchemaOf(k) in schemaOids)) :: oidCache[k])
        + schemaOids;
      assert oidCache == Reconcile(PgNamespace, old(oidCache), schemaOids);
      rows := Some(out);
    }

    // ---------- pg_database ----------

    method DatabaseCatalogs(cs: seq<CatalogInfo>)
      returns (catalogOids: map<Key, Oid>, out: seq<Row>, datnames: seq<string>)
      requires Valid()
      modifies this`oidCounter, this`issued
      ensures datnames == CatalogNames(cs)
      ensures Agrees(true, catalogOids, out, 0, WalkCatalogs(PgDatabase, oidCache, cs, Start(old(issued))))
    {
      ghost var total := WalkCatalogs(PgDatabase, oidCache, cs, Start(issued));
      catalogOids, out, datnames := map[], [], [];
      assert cs[0..] == cs;
      for i := 0 to |cs|
        invariant Valid() && datnames == CatalogNames(cs)[..i]
        invariant total == WalkCatalogs(PgDatabase, oidCache, cs[i..], Now(catalogOids, out, 0))
      {
        var key := Catalog(cs[i].name);
        assert cs[i..][1..] == cs[i + 1..];
        var oid := Resolve(key);
        catalogOids := catalogOids[key := oid];
        out := out + [DatabaseRow(key, AsI32(oid), cs[i].name)];
        datnames := datnames + [cs[i].name];
      }
    }

    method DatabaseDefault(catalogOids0: map<Key, Oid>, out0: seq<Row>)
      returns (catalogOids: map<Key, Oid>, out: seq<Row>)
      requires Valid()
      modifies this`oidCounter, this`issued
      ensures Agrees(true, catalogOids, out, 0,
              Visit(PgDatabase, oidCache, POSTGRES, ["postgres"], old(Now(catalogOids0, out0, 0))))
    {
      var oid := Resolve(POSTGRES);
      catalogOids := catalogOids0[POSTGRES := oid];
      out := out0 + [DatabaseRow(POSTGRES, AsI32(oid), "postgres")];
    }

    method BuildPgDatabase(view: View) returns (rows: Option<seq<Row>>)
      requires Valid()
      modifies this
      ensures Valid()
      ensures (Abs(), rows) == Step(PgDatabase, view, old(Abs()))
    {
      if view.None? { return None; }
      hide Visit, Reconcile, WalkCatalogs;
      var catalogOids, out, datnames := DatabaseCatalogs(view.value);
      if "postgres" !in datnames {
        catalogOids, out := DatabaseDefault(catalogOids, out);
      }
      oidCache := (map k | k in oidCache && !k.Catalog? && Catalog(k.catalog) in catalogOids :: oidCache[k])
        + catalogOids;
      RetainDatabases(old(oidCache), catalogOids);
      rows := Some(out);
    }

    // ---------- pg_class ----------

    method ClassTables(c: string, s: string, ts: seq<TableInfo>, schemaOid: Oid, swapCache0: map<Key, Oid>,
                       out0: seq<Row>)
      returns (ok: bool, swapCache: map<Key, Oid>, out: seq<Row>)
      requires Valid()
      modifies this`oidCounter, this`issued
      ensures Agrees(ok, swapCache, out, schemaOid,
              WalkTables(PgClass, oidCache, c, s, ts, old(Now(swapCache0, out0, schemaOid))))
    {
      ghost var total := WalkTables(PgClass, oidCache, c, s, ts, Now(swapCache0, out0, schemaOid));
      swapCache, out := swapCache0, out0;
      assert ts[0..] == ts;
      for n := 0 to |ts|
        invariant Valid()
        invariant total == WalkTables(PgClass, oidCache, c, s, ts[n..], Now(swapCache, out, schemaOid))
      {
        var key := Table(c, s, ts[n].name);
        assert ts[n..][1..] == ts[n + 1..];
        var oid := Resolve(key);
        swapCache := swapCache[key := oid];
        match ts[n].columns {
          case Failed => return false, swapCache, out;
          case Absent =>
          case Listed(_) =>
            if !ts[n].typeReadable { return false, swapCache, out; }
            out := out + [ClassRow(key, AsI32(oid), ts[n].name, AsI32(schemaOid))];
        }
      }
      ok := true;
    }

    method ClassSchemas(c: string, ss: seq<SchemaInfo>, schemaOid0: Oid, swapCache0: map<Key, Oid>, out0: seq<Row>)
      returns (ok: bool, schemaOid: Oid, swapCache: map<Key, Oid>, out: seq<Row>)
      requires Valid()
      modifies this`oidCounter, this`issued
      ensures Agrees(ok, swapCache, out, schemaOid,
              WalkSchemas(PgClass, oidCache, c, ss, old(Now(swapCache0, out0, schemaOid0))))
    {
      ghost var total := WalkSchemas(PgClass, oidCache, c, ss, Now(swapCache0, out0, schemaOid0));
      swapCache, out, schemaOid := swapCache0, out0, schemaOid0;
      assert ss[0..] == ss;
      for j := 0 to |ss|
        invariant Valid()
        invariant total == WalkSchemas(PgClass, oidCache, c, ss[j..], Now(swapCache, out, schemaOid))
      {
        assert ss[j..][1..] == ss[j + 1..];
        schemaOid := Resolve(Schema(c, ss[j].name));
        swapCache := swapCache[Schema(c, ss[j].name) := schemaOid];
        match ss[j].tables {
          case Failed => return false, schemaOid, swapCache, out;
          case Absent =>
          case Listed(ts) =>
            ok, swapCache, out := ClassTables(c, ss[j].name, ts, schemaOid, swapCache, out);
            if !ok { return; }
        }
      }
      ok := true;
    }

    method BuildPgClass(view: View) returns (rows: Option<seq<Row>>)
      requires Valid()
      modifies this
      ensures Valid()
      ensures (Abs(), rows) == Step(PgClass, view, old(Abs()))
    {
      if view.None? { return None; }
      var cs := view.value;
      ghost var total := WalkCatalogs(PgClass, oidCache, cs, Start(issued));
      var swapCache: map<Key, Oid>, out: seq<Row>, ok := map[], [], true;
      var schemaOid: Oid := 0;
      assert cs[0..] == cs;
      for i := 0 to |cs|
        invariant Valid() && oidCache == old(oidCache)
        invariant total == WalkCatalogs(PgClass, oidCache, cs[i..], Now(swapCache, out, schemaOid))
      {
        assert cs[i..][1..] == cs[i + 1..];
        var catalogOid := Resolve(Catalog(cs[i].name));
        swapCache := swapCache[Catalog(cs[i].name) := catalogOid];
        match cs[i].schemas {
          case Failed => return None;
          case Absent =>
          case Listed(ss) =>
            ok, schemaOid, swapCache, out := ClassSchemas(cs[i].name, ss, schemaOid, swapCache, out);
            if !ok { return None; }
        }
      }
      oidCache := swapCache;
      assert oidCache == Reconcile(PgClass, old(oidCache), swapCache);
      rows := Some(out);
    }

    // ---------- pg_attribute ----------

    method AttributeTables(c: string, s: string, ts: seq<TableInfo>, tableOids0: map<Key, Oid>, out0: seq<Row>)
      returns (ok: bool, tableOids: map<Key, Oid>, out: seq<Row>)
      requires Valid()
      modifies this`oidCounter, this`issued
      ensures Agrees(ok, tableOids, out, 0, WalkTables(PgAttribute, oidCache, c, s, ts, old(Now(tableOids0, out0, 0))))
    {
      hide ResolveOid;
      ghost var total := WalkTables(PgAttribute, oidCache, c, s, ts, Now(tableOids0, out0, 0));
      tableOids, out := tableOids0, out0;
      assert ts[0..] == ts;
      for n := 0 to |ts|
        invariant Valid()
        invariant total == WalkTables(PgAttribute, oidCache, c, s, ts[n..], Now(tableOids, out, 0))
      {
        var key := Table(c, s, ts[n].name);
        assert ts[n..][1..] == ts[n + 1..];
        var oid := Resolve(key);
        tableOids := tableOids[key := oid];
        match ts[n].columns {
          case Failed => return false, tableOids, out;
          case Absent =>
          case Listed(columns) =>
            ghost var before := out;
            for m := 0 to |columns|
              invariant out == before + RowsFor(PgAttribute, key, columns[..m], oid, 0)
            {
              out := out + [AttributeRow(key, AsI32(oid), columns[m])];
            }
            assert columns[..|columns|] == columns;
        }
      }
      ok := true;
    }

    method AttributeSchemas(c: string, ss: seq<SchemaInfo>, tableOids0: map<Key, Oid>, out0: seq<Row>)
      returns (ok: bool, tableOids: map<Key, Oid>, out: seq<Row>)
      requires Valid()
      modifies this`oidCounter, this`issued
      ensures Agrees(ok, tableOids, out, 0, WalkSchemas(PgAttribute, oidCache, c, ss, old(Now(tableOids0, out0, 0))))
    {
      ghost var total := WalkSchemas(PgAttribute, oidCache, c, ss, Now(tableOids0, out0, 0));
      tableOids, out := tableOids0, out0;
      assert ss[0..] == ss;
      for j := 0 to |ss|
        invariant Valid()
        invariant total == WalkSchemas(PgAttribute, oidCache, c, ss[j..], Now(tableOids, out, 0))
      {
        assert ss[j..][1..] == ss[j + 1..];
        match ss[j].tables {
          case Failed => return false, tableOids, out;
          case Absent =>
          case Listed(ts) =>
            ok, tableOids, out := AttributeTables(c, ss[j].name, ts, tableOids, out);
            if !ok { return; }
        }
      }
      ok := true;
    }

    method BuildPgAttribute(view: View) returns (rows: Option<seq<Row>>)
      requires Valid()
      modifies this
      ensures Valid()
      ensures (Abs(), rows) == Step(PgAttribute, view, old(Abs()))
    {
      if view.None? { return None; }
      var cs := view.value;
      ghost var total := WalkCatalogs(PgAttribute, oidCache, cs, Start(issued));
      var tableOids: map<Key, Oid>, out: seq<Row>, ok := map[], [], true;
      assert cs[0..] == cs;
      for i := 0 to |cs|
        invariant Valid() && oidCache == old(oidCache)
        invariant total == WalkCatalogs(PgAttribute, oidCache, cs[i..], Now(tableOids, out, 0))
      {
        assert cs[i..][1..] == cs[i + 1..];
        match cs[i].schemas {
          case Failed => return None;
          case Absent =>
          case Listed(ss) =>
            ok, tableOids, out := AttributeSchemas(cs[i].name, ss, tableOids, out);
            if !ok { return None; }
        }
      }
      oidCache := (map k | k in oidCache && (!k.Table? || k in tableOids) :: oidCache[k]) + tableOids;
      assert oidCache == Reconcile(PgAttribute, old(oidCache), tableOids);
      rows := Some(out);
    }
  }
}
