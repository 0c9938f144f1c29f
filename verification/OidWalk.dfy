/**
 What one builder call does, independently of its loops: the walk is flattened into the list of
 keys it takes, and the facts every run needs are read off that list.
 */
module OidWalk {
  import opened Wrappers
  import opened OidAllocator

  /** Take an OID for `key` and emit a row per label, or stop with an error. */
  datatype Op = Take(key: Key, labels: seq<string>) | Abort

  function TableOps(b: Builder, c: string, s: string, t: TableInfo): seq<Op> {
    match TableLabels(b, t)
    case None => [Take(Table(c, s, t.name), []), Abort]
    case Some(labels) => [Take(Table(c, s, t.name), labels)]
  }

  function TablesOps(b: Builder, c: string, s: string, ts: seq<TableInfo>): seq<Op> {
    if ts == [] then [] else TableOps(b, c, s, ts[0]) + TablesOps(b, c, s, ts[1..])
  }

  function InTables(b: Builder, c: string, s: SchemaInfo): seq<Op> {
    match s.tables
    case Failed => [Abort]
    case Absent => []
    case Listed(ts) => TablesOps(b, c, s.name, ts)
  }

  function SchemaOps(b: Builder, c: string, s: SchemaInfo): seq<Op> {
    if b.PgNamespace? then [Take(Schema(c, s.name), [s.name])]
    else (if b.PgClass? then [Take(Schema(c, s.name), [])] else []) + InTables(b, c, s)
  }

  function SchemasOps(b: Builder, c: string, ss: seq<SchemaInfo>): seq<Op> {
    if ss == [] then [] else SchemaOps(b, c, ss[0]) + SchemasOps(b, c, ss[1..])
  }

  function InSchemas(b: Builder, c: CatalogInfo): seq<Op> {
    match c.schemas
    case Failed => [Abort]
    case Absent => []
    case Listed(ss) => SchemasOps(b, c.name, ss)
  }

  function CatalogOps(b: Builder, c: CatalogInfo): seq<Op> {
    if b.PgDatabase? then [Take(Catalog(c.name), [c.name])]
    else (if b.PgClass? then [Take(Catalog(c.name), [])] else []) + InSchemas(b, c)
  }

  function CatalogsOps(b: Builder, cs: seq<CatalogInfo>): seq<Op> {
    if cs == [] then [] else CatalogOps(b, cs[0]) + CatalogsOps(b, cs[1..])
  }

  function ViewOps(b: Builder, cs: seq<CatalogInfo>): seq<Op> {
    CatalogsOps(b, cs) + if AddsPostgres(b, cs) then [Take(POSTGRES, ["postgres"])] else []
  }

  // ---------- The flat list computes the walk ----------

  function Do(b: Builder, cache: map<Key, Oid>, op: Op, p: Progress): Progress {
    match op
    case Abort => p.(failed := true)
    case Take(key, labels) => Visit(b, cache, key, labels, p)
  }

  function Play(b: Builder, cache: map<Key, Oid>, ops: seq<Op>, p: Progress): Progress {
    if ops == [] || p.failed then p else Play(b, cache, ops[1..], Do(b, cache, ops[0], p))
  }

  lemma {:induction false} PlayConcat(b: Builder, cache: map<Key, Oid>, xs: seq<Op>, ys: seq<Op>, p: Progress)
    ensures Play(b, cache, xs + ys, p) == Play(b, cache, ys, Play(b, cache, xs, p))
    decreases |xs|
  {
    if xs == [] {
      assert xs + ys == ys;
    } else if !p.failed {
      assert (xs + ys)[1..] == xs[1..] + ys;
      PlayConcat(b, cache, xs[1..], ys, Do(b, cache, xs[0], p));
    }
  }

  lemma PlayOne(b: Builder, cache: map<Key, Oid>, op: Op, p: Progress)
    requires !p.failed
    ensures Play(b, cache, [op], p) == Do(b, cache, op, p)
  {
    assert [op][1..] == [];
  }

  lemma PlayTable(b: Builder, cache: map<Key, Oid>, c: string, s: string, t: TableInfo, p: Progress)
    requires !p.failed
    ensures Play(b, cache, TableOps(b, c, s, t), p) == WalkTable(b, cache, c, s, t, p)
  {
    var ops := TableOps(b, c, s, t);
    PlayOne(b, cache, ops[0], p);
    assert ops == [ops[0]] + ops[1..];
    PlayConcat(b, cache, [ops[0]], ops[1..], p);
    if |ops| == 2 { PlayOne(b, cache, Abort, Do(b, cache, ops[0], p)); }
  }

  lemma {:induction false} PlayTables(b: Builder, cache: map<Key, Oid>, c: string, s: string, ts: seq<TableInfo>,
                                      p: Progress)
    requires !p.failed
    ensures Play(b, cache, TablesOps(b, c, s, ts), p) == WalkTables(b, cache, c, s, ts, p)
    decreases |ts|
  {
    if ts != [] {
      PlayTable(b, cache, c, s, ts[0], p);
      PlayConcat(b, cache, TableOps(b, c, s, ts[0]), TablesOps(b, c, s, ts[1..]), p);
      var q := WalkTable(b, cache, c, s, ts[0], p);
      if !q.failed { PlayTables(b, cache, c, s, ts[1..], q); }
    }
  }

  lemma PlaySchema(b: Builder, cache: map<Key, Oid>, c: string, s: SchemaInfo, p: Progress)
    requires !p.failed
    ensures Play(b, cache, SchemaOps(b, c, s), p) == WalkSchema(b, cache, c, s, p)
  {
    if b.PgNamespace? {
      PlayOne(b, cache, Take(Schema(c, s.name), [s.name]), p);
    } else {
      var own := if b.PgClass? then [Take(Schema(c, s.name), [])] else [];
      if b.PgClass? { PlayOne(b, cache, own[0], p); }
      var q := Play(b, cache, own, p);
      PlayConcat(b, cache, own, InTables(b, c, s), p);
      if s.tables.Listed? { PlayTables(b, cache, c, s.name, s.tables.items, q); }
      if s.tables.Failed? { PlayOne(b, cache, Abort, q); }
    }
  }

  lemma {:induction false} PlaySchemas(b: Builder, cache: map<Key, Oid>, c: string, ss: seq<SchemaInfo>, p: Progress)
    requires !p.failed
    ensures Play(b, cache, SchemasOps(b, c, ss), p) == WalkSchemas(b, cache, c, ss, p)
    decreases |ss|
  {
    if ss != [] {
      PlaySchema(b, cache, c, ss[0], p);
      PlayConcat(b, cache, SchemaOps(b, c, ss[0]), SchemasOps(b, c, ss[1..]), p);
      var q := WalkSchema(b, cache, c, ss[0], p);
      if !q.failed { PlaySchemas(b, cache, c, ss[1..], q); }
    }
  }

  lemma PlayCatalog(b: Builder, cache: map<Key, Oid>, c: CatalogInfo, p: Progress)
    requires !p.failed
    ensures Play(b, cache, CatalogOps(b, c), p) == WalkCatalog(b, cache, c, p)
  {
    if b.PgDatabase? {
      PlayOne(b, cache, Take(Catalog(c.name), [c.name]), p);
    } else {
      var own := if b.PgClass? then [Take(Catalog(c.name), [])] else [];
      if b.PgClass? { PlayOne(b, cache, own[0], p); }
      var q := Play(b, cache, own, p);
      PlayConcat(b, cache, own, InSchemas(b, c), p);
      if c.schemas.Listed? { PlaySchemas(b, cache, c.name, c.schemas.items, q); }
      if c.schemas.Failed? { PlayOne(b, cache, Abort, q); }
    }
  }

  lemma {:induction false} PlayCatalogs(b: Builder, cache: map<Key, Oid>, cs: seq<CatalogInfo>, p: Progress)
    requires !p.failed
    ensures Play(b, cache, CatalogsOps(b, cs), p) == WalkCatalogs(b, cache, cs, p)
    decreases |cs|
  {
    if cs != [] {
      PlayCatalog(b, cache, cs[0], p);
      PlayConcat(b, cache, CatalogOps(b, cs[0]), CatalogsOps(b, cs[1..]), p);
      var q := WalkCatalog(b, cache, cs[0], p);
      if !q.failed { PlayCatalogs(b, cache, cs[1..], q); }
    }
  }

  lemma PlayView(b: Builder, cache: map<Key, Oid>, cs: seq<CatalogInfo>, p: Progress)
    requires !p.failed
    ensures Play(b, cache, ViewOps(b, cs), p) == Walk(b, cache, Some(cs), p)
  {
    PlayCatalogs(b, cache, cs, p);
    var q := WalkCatalogs(b, cache, cs, p);
    var tail: seq<Op> := if AddsPostgres(b, cs) then [Take(POSTGRES, ["postgres"])] else [];
    PlayConcat(b, cache, CatalogsOps(b, cs), tail, p);
    if !q.failed && tail != [] { PlayOne(b, cache, tail[0], q); }
  }

  // ---------- What a walk leaves in the map it builds ----------

  function KeysOf(ops: seq<Op>): set<Key> {
    set op | op in ops && op.Take? :: op.key
  }

  lemma KeysOfConcat(xs: seq<Op>, ys: seq<Op>)
    ensures KeysOf(xs + ys) == KeysOf(xs) + KeysOf(ys)
  {
    forall k | k in KeysOf(xs) + KeysOf(ys) ensures k in KeysOf(xs + ys) {
      var op :| (op in xs || op in ys) && op.Take? && op.key == k;
      assert op in xs + ys;
    }
  }

  /** `oid` is what `resolve_oid` answers for `key`: fixed, remembered, or a ticket from `base` on. */
  ghost predicate Resolved(key: Key, oid: Oid, cache: map<Key, Oid>, base: nat, issued: seq<Key>) {
    if FixedOid(key).Some? then oid == FixedOid(key).value
    else if key in cache then oid == cache[key]
    else exists t :: base <= t < |issued| && issued[t] == key && oid == TicketOid(t)
  }

  ghost predicate AllResolved(p: Progress, cache: map<Key, Oid>, base: nat) {
    base <= |p.issued| && forall k :: k in p.taken ==> Resolved(k, p.taken[k], cache, base, p.issued)
  }

  lemma VisitResolves(b: Builder, cache: map<Key, Oid>, key: Key, labels: seq<string>, p: Progress, base: nat)
    requires AllResolved(p, cache, base)
    ensures var r := Visit(b, cache, key, labels, p);
            AllResolved(r, cache, base) && p.issued <= r.issued && p.rows <= r.rows
  {
    var r := Visit(b, cache, key, labels, p);
    if FixedOid(key).None? && key !in cache {
      assert r.issued[|p.issued|] == key && r.taken[key] == TicketOid(|p.issued|);
    }
    forall k | k in r.taken && k != key ensures Resolved(k, r.taken[k], cache, base, r.issued) {
      assert Resolved(k, p.taken[k], cache, base, p.issued);
      if FixedOid(k).None? && k !in cache {
        var t :| base <= t < |p.issued| && p.issued[t] == k && p.taken[k] == TicketOid(t);
        assert r.issued[t] == k;
      }
    }
  }

  lemma {:induction false} PlayResolves(b: Builder, cache: map<Key, Oid>, ops: seq<Op>, p: Progress, base: nat)
    requires AllResolved(p, cache, base)
    ensures var r := Play(b, cache, ops, p); AllResolved(r, cache, base) && p.issued <= r.issued && p.rows <= r.rows
    decreases |ops|
  {
    if ops != [] && !p.failed {
      if ops[0].Take? { VisitResolves(b, cache, ops[0].key, ops[0].labels, p, base); }
      PlayResolves(b, cache, ops[1..], Do(b, cache, ops[0], p), base);
    }
  }

  lemma {:induction false} PlayTakes(b: Builder, cache: map<Key, Oid>, ops: seq<Op>, p: Progress)
    requires !Play(b, cache, ops, p).failed
    ensures Play(b, cache, ops, p).taken.Keys == p.taken.Keys + KeysOf(ops)
    ensures Abort !in ops
    decreases |ops|
  {
    if ops != [] {
      var q := Do(b, cache, ops[0], p);
      PlayTakes(b, cache, ops[1..], q);
      assert !q.failed;
      assert ops == [ops[0]] + ops[1..];
      KeysOfConcat([ops[0]], ops[1..]);
      assert KeysOf([ops[0]]) == {ops[0].key} by { assert ops[0] in [ops[0]]; }
      assert q.taken.Keys == p.taken.Keys + {ops[0].key};
    }
  }
}
