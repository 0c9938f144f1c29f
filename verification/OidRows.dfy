/**
 Which objects a builder takes OIDs for, and what its rows say, stated on the catalog itself.
 */
module OidRows {
  import opened Wrappers
  import opened OidAllocator
  import opened OidWalk

  // ---------- Listed objects ----------

  predicate SchemaLists(s: SchemaInfo, k: Key)
    requires !k.Catalog?
  {
    s.name == k.schema &&
    (k.Schema? || (s.tables.Listed? && exists t :: t in s.tables.items && t.name == k.table))
  }

  predicate CatalogLists(c: CatalogInfo, k: Key) {
    c.name == k.catalog &&
    (k.Catalog? || (c.schemas.Listed? && exists s :: s in c.schemas.items && SchemaLists(s, k)))
  }

  /** The object exists in the catalog. */
  predicate Lists(cs: seq<CatalogInfo>, k: Key) {
    exists c :: c in cs && CatalogLists(c, k)
  }

  /** The sorts of objects a builder takes OIDs for. */
  predicate Handles(b: Builder, k: Key) {
    match b
    case PgClass => true
    case PgNamespace => k.Schema?
    case PgAttribute => k.Table?
    case PgDatabase => k.Catalog?
  }

  lemma {:induction false} TablesKeys(b: Builder, c: string, s: string, ts: seq<TableInfo>, k: Key)
    ensures k in KeysOf(TablesOps(b, c, s, ts)) <==>
            k.Table? && k.catalog == c && k.schema == s && exists t :: t in ts && t.name == k.table
  {
    if ts != [] {
      TablesKeys(b, c, s, ts[1..], k);
      KeysOfConcat(TableOps(b, c, s, ts[0]), TablesOps(b, c, s, ts[1..]));
      assert TableOps(b, c, s, ts[0])[0] in TableOps(b, c, s, ts[0]);
      assert KeysOf(TableOps(b, c, s, ts[0])) == {Table(c, s, ts[0].name)};
      assert forall t :: t in ts <==> t == ts[0] || t in ts[1..];
    }
  }

  lemma SchemaKeys(b: Builder, c: string, s: SchemaInfo, k: Key)
    requires !b.PgDatabase?
    ensures k in KeysOf(SchemaOps(b, c, s)) <==> Handles(b, k) && !k.Catalog? && k.catalog == c && SchemaLists(s, k)
  {
    var own := if !b.PgAttribute? then [Take(Schema(c, s.name), if b.PgNamespace? then [s.name] else [])] else [];
    var inner := if b.PgNamespace? then [] else InTables(b, c, s);
    assert SchemaOps(b, c, s) == own + inner;
    KeysOfConcat(own, inner);
    assert KeysOf(own) == if b.PgAttribute? then {} else {Schema(c, s.name)} by {
      if own != [] { assert own[0] in own; }
    }
    if s.tables.Listed? { TablesKeys(b, c, s.name, s.tables.items, k); }
  }

  lemma {:induction false} SchemasKeys(b: Builder, c: string, ss: seq<SchemaInfo>, k: Key)
    requires !b.PgDatabase?
    ensures k in KeysOf(SchemasOps(b, c, ss)) <==>
            Handles(b, k) && !k.Catalog? && k.catalog == c && exists s :: s in ss && SchemaLists(s, k)
  {
    if ss != [] {
      SchemasKeys(b, c, ss[1..], k);
      SchemaKeys(b, c, ss[0], k);
      KeysOfConcat(SchemaOps(b, c, ss[0]), SchemasOps(b, c, ss[1..]));
      assert forall s :: s in ss <==> s == ss[0] || s in ss[1..];
    }
  }

  lemma CatalogKeys(b: Builder, c: CatalogInfo, k: Key)
    ensures k in KeysOf(CatalogOps(b, c)) <==> Handles(b, k) && CatalogLists(c, k)
  {
    var own := if b.PgClass? ||
      b.PgDatabase? then [Take(Catalog(c.name), if b.PgDatabase? then [c.name] else [])] else [];
    var inner := if b.PgDatabase? then [] else InSchemas(b, c);
    assert CatalogOps(b, c) == own + inner;
    KeysOfConcat(own, inner);
    assert KeysOf(own) == if own == [] then {} else {Catalog(c.name)} by {
      if own != [] { assert own[0] in own; }
    }
    if c.schemas.Listed? && !b.PgDatabase? { SchemasKeys(b, c.name, c.schemas.items, k); }
  }

  lemma {:induction false} CatalogsKeys(b: Builder, cs: seq<CatalogInfo>, k: Key)
    ensures k in KeysOf(CatalogsOps(b, cs)) <==> Handles(b, k) && Lists(cs, k)
  {
    if cs != [] {
      CatalogsKeys(b, cs[1..], k);
      CatalogKeys(b, cs[0], k);
      KeysOfConcat(CatalogOps(b, cs[0]), CatalogsOps(b, cs[1..]));
      assert forall c :: c in cs <==> c == cs[0] || c in cs[1..];
    }
  }

  /** A call takes OIDs for exactly the listed objects it handles, and pg_database also for "postgres". */
  predicate Takes(b: Builder, cs: seq<CatalogInfo>, k: Key) {
    (Handles(b, k) && Lists(cs, k)) || (b.PgDatabase? && k == POSTGRES)
  }

  lemma ViewKeys(b: Builder, cs: seq<CatalogInfo>, k: Key)
    ensures k in KeysOf(ViewOps(b, cs)) <==> Takes(b, cs, k)
  {
    CatalogsKeys(b, cs, k);
    var tail: seq<Op> := if AddsPostgres(b, cs) then [Take(POSTGRES, ["postgres"])] else [];
    KeysOfConcat(CatalogsOps(b, cs), tail);
    assert KeysOf(tail) == if tail == [] then {} else {POSTGRES} by {
      if tail != [] { assert tail[0] in tail; }
    }
    if b.PgDatabase? && tail == [] {
      var i :| 0 <= i < |cs| && CatalogNames(cs)[i] == "postgres";
      assert cs[i] in cs && CatalogLists(cs[i], POSTGRES);
    }
  }

  // ---------- Distinct names: no key is taken twice ----------

  predicate DistinctTables(ts: seq<TableInfo>) {
    forall i, j :: 0 <= i < j < |ts| ==> ts[i].name != ts[j].name
  }

  predicate DistinctSchemas(ss: seq<SchemaInfo>) {
    (forall i, j :: 0 <= i < j < |ss| ==> ss[i].name != ss[j].name) &&
    (forall s :: s in ss && s.tables.Listed? ==> DistinctTables(s.tables.items))
  }

  predicate DistinctCatalogs(cs: seq<CatalogInfo>) {
    (forall i, j :: 0 <= i < j < |cs| ==> cs[i].name != cs[j].name) &&
    (forall c :: c in cs && c.schemas.Listed? ==> DistinctSchemas(c.schemas.items))
  }

  predicate Once(ops: seq<Op>) {
    forall i, j :: 0 <= i < j < |ops| && ops[i].Take? && ops[j].Take? ==> ops[i].key != ops[j].key
  }

  lemma OnceConcat(xs: seq<Op>, ys: seq<Op>)
    requires Once(xs) && Once(ys) && KeysOf(xs) !! KeysOf(ys)
    ensures Once(xs + ys)
  {
    var ops := xs + ys;
    forall i, j | 0 <= i < j < |ops| && ops[i].Take? && ops[j].Take? ensures ops[i].key != ops[j].key {
      if i < |xs| <= j {
        assert xs[i].key in KeysOf(xs) && ys[j - |xs|].key in KeysOf(ys);
      }
    }
  }

  lemma {:induction false} TablesOnce(b: Builder, c: string, s: string, ts: seq<TableInfo>)
    requires DistinctTables(ts)
    ensures Once(TablesOps(b, c, s, ts))
  {
    if ts != [] {
      TablesOnce(b, c, s, ts[1..]);
      TablesKeys(b, c, s, ts[1..], Table(c, s, ts[0].name));
      OnceConcat(TableOps(b, c, s, ts[0]), TablesOps(b, c, s, ts[1..]));
    }
  }

  lemma {:induction false} SchemasOnce(b: Builder, c: string, ss: seq<SchemaInfo>)
    requires DistinctSchemas(ss) && !b.PgDatabase?
    ensures Once(SchemasOps(b, c, ss))
  {
    if ss != [] {
      var s := ss[0];
      var own := if !b.PgAttribute? then [Take(Schema(c, s.name), if b.PgNamespace? then [s.name] else [])] else [];
      var inner := if b.PgNamespace? then [] else InTables(b, c, s);
      assert SchemaOps(b, c, s) == own + inner;
      if s.tables.Listed? {
        TablesOnce(b, c, s.name, s.tables.items);
        TablesKeys(b, c, s.name, s.tables.items, Schema(c, s.name));
      }
      OnceConcat(own, inner);
      SchemasOnce(b, c, ss[1..]);
      forall k | k in KeysOf(SchemaOps(b, c, s)) ensures k !in KeysOf(SchemasOps(b, c, ss[1..])) {
        SchemaKeys(b, c, s, k);
        SchemasKeys(b, c, ss[1..], k);
      }
      OnceConcat(SchemaOps(b, c, s), SchemasOps(b, c, ss[1..]));
    }
  }

  lemma {:induction false} CatalogsOnce(b: Builder, cs: seq<CatalogInfo>)
    requires DistinctCatalogs(cs)
    ensures Once(CatalogsOps(b, cs))
  {
    if cs != [] {
      var c := cs[0];
      var own := if b.PgClass? ||
        b.PgDatabase? then [Take(Catalog(c.name), if b.PgDatabase? then [c.name] else [])] else [];
      var inner := if b.PgDatabase? then [] else InSchemas(b, c);
      assert CatalogOps(b, c) == own + inner;
      if c.schemas.Listed? && !b.PgDatabase? {
        SchemasOnce(b, c.name, c.schemas.items);
        SchemasKeys(b, c.name, c.schemas.items, Catalog(c.name));
      }
      OnceConcat(own, inner);
      CatalogsOnce(b, cs[1..]);
      forall k | k in KeysOf(CatalogOps(b, c)) ensures k !in KeysOf(CatalogsOps(b, cs[1..])) {
        CatalogKeys(b, c, k);
        CatalogsKeys(b, cs[1..], k);
      }
      OnceConcat(CatalogOps(b, c), CatalogsOps(b, cs[1..]));
    }
  }

  lemma ViewOnce(b: Builder, cs: seq<CatalogInfo>)
    requires DistinctCatalogs(cs)
    ensures Once(ViewOps(b, cs))
  {
    CatalogsOnce(b, cs);
    if AddsPostgres(b, cs) {
      CatalogsKeys(b, cs, POSTGRES);
      forall c | c in cs ensures c.name != "postgres" {
        var i :| 0 <= i < |cs| && cs[i] == c;
        assert c.name == CatalogNames(cs)[i];
      }
      OnceConcat(CatalogsOps(b, cs), [Take(POSTGRES, ["postgres"])]);
    }
  }

  // ---------- A table is visited right under its schema ----------

  /** Every table taken by pg_class follows the take of its own schema, with no other schema between. */
  predicate Nested(ops: seq<Op>, last: Option<Key>) {
    ops == [] || ops[0].Abort? ||
    ((ops[0].key.Table? ==> last == Some(SchemaOf(ops[0].key))) &&
     Nested(ops[1..], if ops[0].key.Schema? then Some(ops[0].key) else last))
  }

  ghost predicate NestedAlways(ops: seq<Op>) {
    forall last :: Nested(ops, last)
  }

  lemma {:induction false} NestedConcat(xs: seq<Op>, ys: seq<Op>, last: Option<Key>)
    requires Nested(xs, last) && NestedAlways(ys)
    ensures Nested(xs + ys, last)
    decreases |xs|
  {
    if xs == [] {
      assert xs + ys == ys;
    } else {
      assert (xs + ys)[1..] == xs[1..] + ys;
      if xs[0].Take? { NestedConcat(xs[1..], ys, if xs[0].key.Schema? then Some(xs[0].key) else last); }
    }
  }

  lemma {:induction false} TablesNested(c: string, s: string, ts: seq<TableInfo>)
    ensures Nested(TablesOps(PgClass, c, s, ts), Some(Schema(c, s)))
  {
    if ts != [] {
      TablesNested(c, s, ts[1..]);
      var ops, first := TablesOps(PgClass, c, s, ts), TableOps(PgClass, c, s, ts[0]);
      assert ops[1..] == first[1..] + TablesOps(PgClass, c, s, ts[1..]);
      if |first| == 1 {
        assert ops[1..] == TablesOps(PgClass, c, s, ts[1..]);
      } else {
        assert ops[1..][0] == Abort;
      }
    }
  }

  lemma SchemaNested(c: string, s: SchemaInfo)
    ensures NestedAlways(SchemaOps(PgClass, c, s))
  {
    var ops := SchemaOps(PgClass, c, s);
    assert ops[1..] == InTables(PgClass, c, s);
    if s.tables.Listed? { TablesNested(c, s.name, s.tables.items); }
  }

  lemma {:induction false} SchemasNested(c: string, ss: seq<SchemaInfo>)
    ensures NestedAlways(SchemasOps(PgClass, c, ss))
  {
    if ss != [] {
      SchemaNested(c, ss[0]);
      SchemasNested(c, ss[1..]);
      forall last ensures Nested(SchemasOps(PgClass, c, ss), last) {
        NestedConcat(SchemaOps(PgClass, c, ss[0]), SchemasOps(PgClass, c, ss[1..]), last);
      }
    }
  }

  lemma {:induction false} CatalogsNested(cs: seq<CatalogInfo>)
    ensures NestedAlways(CatalogsOps(PgClass, cs))
  {
    if cs != [] {
      var c := cs[0];
      CatalogsNested(cs[1..]);
      if c.schemas.Listed? { SchemasNested(c.name, c.schemas.items); }
      assert CatalogOps(PgClass, c)[1..] == InSchemas(PgClass, c);
      forall last ensures Nested(CatalogsOps(PgClass, cs), last) {
        assert Nested(InSchemas(PgClass, c), last);
        NestedConcat(CatalogOps(PgClass, c), CatalogsOps(PgClass, cs[1..]), last);
      }
    }
  }

  // ---------- Rows agree with the map the walk leaves ----------

  predicate Describes(row: Row, taken: map<Key, Oid>) {
    row.subject in taken && row.oid == AsI32(taken[row.subject]) &&
    (row.ClassRow? && row.subject.Table? ==>
       SchemaOf(row.subject) in taken && row.relnamespace == AsI32(taken[SchemaOf(row.subject)]))
  }

  predicate Tracks(b: Builder, p: Progress, last: Option<Key>) {
    (forall row :: row in p.rows ==> Describes(row, p.taken)) &&
    (b.PgClass? && last.Some? ==> last.value in p.taken && p.taken[last.value] == p.schemaOid)
  }

  lemma {:induction false} PlayDescribes(b: Builder, cache: map<Key, Oid>, ops: seq<Op>, p: Progress, last: Option<Key>)
    requires Once(ops) && p.taken.Keys !! KeysOf(ops) && Tracks(b, p, last)
    requires b.PgClass? ==> Nested(ops, last)
    requires !Play(b, cache, ops, p).failed
    ensures forall row :: row in Play(b, cache, ops, p).rows ==> Describes(row, Play(b, cache, ops, p).taken)
    decreases |ops|
  {
    if ops != [] {
      PlayTakes(b, cache, ops, p);
      assert ops[0] in ops;
      var key := ops[0].key;
      var q := Do(b, cache, ops[0], p);
      assert key in KeysOf(ops);
      assert Tracks(b, q, if key.Schema? then Some(key) else last);
      forall k | k in KeysOf(ops[1..]) ensures k in KeysOf(ops) && k != key {
        var op :| op in ops[1..] && op.Take? && op.key == k;
        assert op in ops;
      }
      PlayDescribes(b, cache, ops[1..], q, if key.Schema? then Some(key) else last);
    }
  }

  // ---------- Which rows there are ----------

  function NameOf(row: Row): string {
    match row
    case ClassRow(_, _, relname, _) => relname
    case NamespaceRow(_, _, nspname) => nspname
    case AttributeRow(_, _, attname) => attname
    case DatabaseRow(_, _, datname) => datname
  }

  function BuilderOf(row: Row): Builder {
    match row
    case ClassRow(_, _, _, _) => PgClass
    case NamespaceRow(_, _, _) => PgNamespace
    case AttributeRow(_, _, _) => PgAttribute
    case DatabaseRow(_, _, _) => PgDatabase
  }

  predicate Shows(rows: seq<Row>, b: Builder, k: Key, name: string) {
    exists row :: row in rows && BuilderOf(row) == b && row.subject == k && NameOf(row) == name
  }

  ghost predicate FromOps(row: Row, b: Builder, ops: seq<Op>) {
    BuilderOf(row) == b && exists op :: op in ops && op.Take? && op.key == row.subject && NameOf(row) in op.labels
  }

  lemma {:induction false} PlayRows(b: Builder, cache: map<Key, Oid>, ops: seq<Op>, p: Progress)
    requires !Play(b, cache, ops, p).failed
    ensures forall row :: row in Play(b, cache, ops, p).rows ==> row in p.rows || FromOps(row, b, ops)
    ensures forall op, name :: op in ops && op.Take? && name in op.labels ==>
              Shows(Play(b, cache, ops, p).rows, b, op.key, name)
    ensures p.rows <= Play(b, cache, ops, p).rows
    decreases |ops|
  {
    if ops != [] {
      PlayTakes(b, cache, ops, p);
      assert ops[0] in ops;
      var key, labels := ops[0].key, ops[0].labels;
      var q := Do(b, cache, ops[0], p);
      PlayRows(b, cache, ops[1..], q);
      var r := Play(b, cache, ops, p);
      var added := RowsFor(b, key, labels, q.taken[key], p.schemaOid);
      assert q.rows == p.rows + added;
      forall row | row in r.rows && row !in p.rows ensures FromOps(row, b, ops) {
        if row in q.rows {
          var i :| 0 <= i < |added| && added[i] == row;
          assert NameOf(row) == labels[i];
        } else {
          var op :| op in ops[1..] && op.Take? && op.key == row.subject && NameOf(row) in op.labels;
          assert op in ops;
        }
      }
      forall name | name in labels ensures Shows(r.rows, b, key, name) {
        var i :| 0 <= i < |labels| && labels[i] == name;
        assert added[i] in q.rows && added[i] in r.rows && NameOf(added[i]) == name && BuilderOf(added[i]) == b;
      }
      assert forall op :: op in ops ==> op == ops[0] || op in ops[1..];
    }
  }

  // ---------- Tables that have columns ----------

  predicate SchemaDescribes(s: SchemaInfo, k: Key)
    requires k.Table?
  {
    s.name == k.schema && s.tables.Listed? && exists t :: t in s.tables.items && t.name == k.table && t.columns.Listed?
  }

  predicate CatalogDescribes(c: CatalogInfo, k: Key)
    requires k.Table?
  {
    c.name == k.catalog && c.schemas.Listed? && exists s :: s in c.schemas.items && SchemaDescribes(s, k)
  }

  /** The table exists and its schema can be read. */
  predicate HasColumns(cs: seq<CatalogInfo>, k: Key) {
    k.Table? && exists c :: c in cs && CatalogDescribes(c, k)
  }

  lemma {:induction false} TablesMember(b: Builder, c: string, s: string, ts: seq<TableInfo>, op: Op)
    ensures op in TablesOps(b, c, s, ts) <==> exists t :: t in ts && op in TableOps(b, c, s, t)
  {
    if ts != [] {
      TablesMember(b, c, s, ts[1..], op);
      assert forall t :: t in ts <==> t == ts[0] || t in ts[1..];
    }
  }

  lemma {:induction false} SchemasMember(b: Builder, c: string, ss: seq<SchemaInfo>, op: Op)
    ensures op in SchemasOps(b, c, ss) <==> exists s :: s in ss && op in SchemaOps(b, c, s)
  {
    if ss != [] {
      SchemasMember(b, c, ss[1..], op);
      assert forall s :: s in ss <==> s == ss[0] || s in ss[1..];
    }
  }

  lemma {:induction false} CatalogsMember(b: Builder, cs: seq<CatalogInfo>, op: Op)
    ensures op in CatalogsOps(b, cs) <==> exists c :: c in cs && op in CatalogOps(b, c)
  {
    if cs != [] {
      CatalogsMember(b, cs[1..], op);
      assert forall c :: c in cs <==> c == cs[0] || c in cs[1..];
    }
  }

  /** pg_namespace lists a schema under its own name. */
  lemma NamespaceLabels(cs: seq<CatalogInfo>, op: Op)
    requires op in ViewOps(PgNamespace, cs) && op.Take?
    ensures op.key.Schema? && op.labels == [op.key.schema]
  {
    CatalogsMember(PgNamespace, cs, op);
    var c :| c in cs && op in CatalogOps(PgNamespace, c);
    SchemasMember(PgNamespace, c.name, c.schemas.items, op);
  }

  /** Only a table with columns gives pg_class and pg_attribute rows. */
  lemma SchemaLabelled(b: Builder, c: string, s: SchemaInfo, op: Op)
    requires b.PgClass? || b.PgAttribute?
    requires op in SchemaOps(b, c, s) && op.Take? && op.labels != []
    ensures op.key.Table? && op.key.catalog == c && SchemaDescribes(s, op.key)
  {
    assert op in InTables(b, c, s);
    TablesMember(b, c, s.name, s.tables.items, op);
    var t :| t in s.tables.items && op in TableOps(b, c, s.name, t);
    assert t.columns.Listed? && op.key == Table(c, s.name, t.name);
  }

  lemma TableLabelled(b: Builder, cs: seq<CatalogInfo>, op: Op)
    requires b.PgClass? || b.PgAttribute?
    requires op in ViewOps(b, cs) && op.Take? && op.labels != []
    ensures HasColumns(cs, op.key)
  {
    CatalogsMember(b, cs, op);
    var c :| c in cs && op in CatalogOps(b, c);
    assert op in InSchemas(b, c) && c.schemas.Listed?;
    hide TableOps, TablesOps, SchemasOps, CatalogsOps;
    SchemasMember(b, c.name, c.schemas.items, op);
    var s :| s in c.schemas.items && op in SchemaOps(b, c.name, s);
    SchemaLabelled(b, c.name, s, op);
    assert CatalogDescribes(c, op.key);
  }

  lemma SchemaShows(c: string, s: SchemaInfo, k: Key)
    requires k.Table? && k.catalog == c && SchemaDescribes(s, k) && Abort !in SchemaOps(PgClass, c, s)
    ensures Take(k, [k.table]) in SchemaOps(PgClass, c, s)
  {
    var t :| t in s.tables.items && t.name == k.table && t.columns.Listed?;
    var op := if TableLabels(PgClass, t).Some? then Take(k, [k.table]) else Abort;
    assert op in TableOps(PgClass, c, s.name, t);
    TablesMember(PgClass, c, s.name, s.tables.items, op);
    assert op in InTables(PgClass, c, s);
  }

  /** A pg_class call that does not fail lists every table with columns. */
  lemma ClassLabels(cs: seq<CatalogInfo>, k: Key)
    requires HasColumns(cs, k) && Abort !in ViewOps(PgClass, cs)
    ensures Take(k, [k.table]) in ViewOps(PgClass, cs)
  {
    var c :| c in cs && CatalogDescribes(c, k);
    var s :| s in c.schemas.items && SchemaDescribes(s, k);
    assert c.name == k.catalog && c.schemas.Listed?;
    hide *;
    if Abort in SchemaOps(PgClass, c.name, s) { ClassMember(cs, c, s, Abort); }
    SchemaShows(c.name, s, k);
    ClassMember(cs, c, s, Take(k, [k.table]));
  }

  lemma ClassMember(cs: seq<CatalogInfo>, c: CatalogInfo, s: SchemaInfo, op: Op)
    requires c in cs && c.schemas.Listed? && s in c.schemas.items && op in SchemaOps(PgClass, c.name, s)
    ensures op in ViewOps(PgClass, cs)
  {
    SchemasMember(PgClass, c.name, c.schemas.items, op);
    assert op in CatalogOps(PgClass, c);
    CatalogsMember(PgClass, cs, op);
  }
}
