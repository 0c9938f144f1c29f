/**
 Whole runs: any sequence of builder calls, each over the catalog as it stands then, failing calls
 included.  OIDs are never shared, stay put for exactly as long as no call drops them, and join
 across the four tables.
 */
module OidRuns {
  import opened Wrappers
  import opened OidAllocator
  import opened OidWalk
  import opened OidRows

  datatype Event = Event(builder: Builder, view: View)

  /** The state after the first `n` calls. */
  function After(run: seq<Event>, n: nat): State
    requires n <= |run|
  {
    if n == 0 then State(map[], []) else Step(run[n - 1].builder, run[n - 1].view, After(run, n - 1)).0
  }

  /** What call number `i` reports; None when it fails. */
  function Report(run: seq<Event>, i: nat): Option<seq<Row>>
    requires i < |run|
  {
    Step(run[i].builder, run[i].view, After(run, i)).1
  }

  /** Listed names are distinct: the providers keep them as map keys. */
  predicate Distinct(run: seq<Event>) {
    forall e :: e in run && e.view.Some? ==> DistinctCatalogs(e.view.value)
  }

  /** Call number `i` shows OID column value `oid` for object `k`. */
  predicate Reports(run: seq<Event>, i: nat, k: Key, oid: int)
    requires i < |run|
  {
    Report(run, i).Some? && exists row :: row in Report(run, i).value && (k, oid) in Mentions(row)
  }

  /** The u32 counter has not gone round. */
  predicate NoWrap(run: seq<Event>) {
    FIRST_DYNAMIC + |After(run, |run|).issued| <= U32
  }

  /** The cache holds `oid` for `k`. */
  predicate Holds(st: State, k: Key, oid: Oid) {
    k in st.cache && st.cache[k] == oid
  }

  // ---------- Tickets identify keys ----------

  /** A schema named pg_catalog, of whatever catalog. */
  predicate InPgCatalog(k: Key) {
    k.Schema? && k.schema == "pg_catalog"
  }

  /** `oid` is the fixed OID of `k`, or that of a ticket `k` itself took. */
  ghost predicate Owns(k: Key, oid: Oid, issued: seq<Key>) {
    if InPgCatalog(k) then oid == PG_CATALOG_OID
    else exists t :: 0 <= t < |issued| && issued[t] == k && oid == TicketOid(t)
  }

  ghost predicate Sound(st: State) {
    forall k :: k in st.cache ==> Owns(k, st.cache[k], st.issued)
  }

  lemma OwnsGrows(k: Key, oid: Oid, issued: seq<Key>, more: seq<Key>)
    requires Owns(k, oid, issued) && issued <= more
    ensures Owns(k, oid, more)
  {
    if !InPgCatalog(k) {
      var t :| 0 <= t < |issued| && issued[t] == k && oid == TicketOid(t);
      assert more[t] == k;
    }
  }

  /** Everything later proofs need about the walk of one call. */
  lemma StepFacts(b: Builder, view: View, st: State)
    requires Sound(st)
    ensures var p := Walk(b, st.cache, view, Start(st.issued));
            st.issued <= p.issued &&
            (forall k :: k in p.taken ==>
                Resolved(k, p.taken[k], st.cache, |st.issued|, p.issued) && Owns(k, p.taken[k], p.issued))
    ensures var p := Walk(b, st.cache, view, Start(st.issued));
            !p.failed ==>
                view.Some? && (forall k :: k in p.taken <==> Takes(b, view.value, k)) &&
                  Abort !in ViewOps(b, view.value)
  {
    if view.Some? {
      var ops := ViewOps(b, view.value);
      PlayView(b, st.cache, view.value, Start(st.issued));
      PlayResolves(b, st.cache, ops, Start(st.issued), |st.issued|);
      var p := Play(b, st.cache, ops, Start(st.issued));
      forall k | k in p.taken ensures Owns(k, p.taken[k], p.issued) {
        if k in st.cache { OwnsGrows(k, st.cache[k], st.issued, p.issued); }
      }
      if !p.failed {
        PlayTakes(b, st.cache, ops, Start(st.issued));
        forall k ensures k in p.taken <==> Takes(b, view.value, k) { ViewKeys(b, view.value, k); }
      }
    }
  }

  lemma StepSound(b: Builder, view: View, st: State)
    requires Sound(st)
    ensures Sound(Step(b, view, st).0) && st.issued <= Step(b, view, st).0.issued
  {
    StepFacts(b, view, st);
    var st' := Step(b, view, st).0;
    forall k | k in st'.cache ensures Owns(k, st'.cache[k], st'.issued) {
      if k in st.cache && st'.cache[k] == st.cache[k] { OwnsGrows(k, st.cache[k], st.issued, st'.issued); }
    }
  }

  lemma {:induction false} RunSound(run: seq<Event>, n: nat)
    requires n <= |run|
    ensures Sound(After(run, n))
  {
    hide Walk;
    if n > 0 {
      RunSound(run, n - 1);
      StepSound(run[n - 1].builder, run[n - 1].view, After(run, n - 1));
    }
  }

  lemma {:induction false} IssuedGrows(run: seq<Event>, i: nat, n: nat)
    requires i <= n <= |run|
    ensures After(run, i).issued <= After(run, n).issued
    decreases n
  {
    hide Walk;
    if i < n {
      IssuedGrows(run, i, n - 1);
      RunSound(run, n - 1);
      StepSound(run[n - 1].builder, run[n - 1].view, After(run, n - 1));
    }
  }

  /** The OIDs call number `i` resolved, failing or not. */
  function Taken(run: seq<Event>, i: nat): map<Key, Oid>
    requires i < |run|
  {
    Walk(run[i].builder, After(run, i).cache, run[i].view, Start(After(run, i).issued)).taken
  }

  /** A report shows the OIDs its call resolved. */
  lemma WalkDescribes(b: Builder, view: View, st: State)
    requires view.Some? && DistinctCatalogs(view.value)
    ensures var p := Walk(b, st.cache, view, Start(st.issued));
            !p.failed ==> forall row :: row in p.rows ==> Describes(row, p.taken)
  {
    var ops := ViewOps(b, view.value);
    PlayView(b, st.cache, view.value, Start(st.issued));
    ViewOnce(b, view.value);
    CatalogsNested(view.value);
    if b.PgClass? { assert ops == CatalogsOps(b, view.value); }
    if !Play(b, st.cache, ops, Start(st.issued)).failed { PlayDescribes(b, st.cache, ops, Start(st.issued), None); }
  }

  /** Every OID in a report is the one its call resolved, and the one the cache then holds. */
  lemma ReportedIsCached(run: seq<Event>, i: nat, k: Key, oid: int)
    requires Distinct(run) && i < |run| && Reports(run, i, k, oid)
    ensures k in Taken(run, i) && oid == AsI32(Taken(run, i)[k])
    ensures Holds(After(run, i + 1), k, Taken(run, i)[k])
    ensures run[i].view.Some? && Takes(run[i].builder, run[i].view.value, k)
  {
    RunSound(run, i);
    StepFacts(run[i].builder, run[i].view, After(run, i));
    assert run[i] in run;
    WalkDescribes(run[i].builder, run[i].view, After(run, i));
  }

  // ---------- No OID is handed to two objects ----------

  /** Call number `i`, failing or not, resolved `k` to `oid`. */
  predicate Handed(run: seq<Event>, i: nat, k: Key, oid: Oid)
    requires i < |run|
  {
    k in Taken(run, i) && Taken(run, i)[k] == oid
  }

  lemma HandedIsOwned(run: seq<Event>, i: nat, k: Key, oid: Oid)
    requires i < |run| && Handed(run, i, k, oid)
    ensures Owns(k, oid, After(run, |run|).issued)
  {
    hide Walk, Owns, Sound, ViewOps, Resolved, Takes;
    RunSound(run, i);
    StepFacts(run[i].builder, run[i].view, After(run, i));
    IssuedGrows(run, i + 1, |run|);
    OwnsGrows(k, oid, After(run, i + 1).issued, After(run, |run|).issued);
  }

  /** Two tickets give the same OID exactly when they are a whole number of u32 rounds apart. */
  lemma TicketsCollide(t: nat, u: nat)
    ensures TicketOid(t) == TicketOid(u) <==> (t - u) % U32 == 0
  {
    var a, b := FIRST_DYNAMIC + t, FIRST_DYNAMIC + u;
    assert t - u == U32 * (a / U32 - b / U32) + (a % U32 - b % U32);
  }

  lemma OidsAreNotShared(run: seq<Event>, i: nat, j: nat, k: Key, k': Key, oid: Oid)
    requires i < |run| && j < |run| && NoWrap(run)
    requires Handed(run, i, k, oid) && Handed(run, j, k', oid)
    ensures k == k' || (k.Schema? && k.schema == "pg_catalog" && k'.Schema? && k'.schema == "pg_catalog")
    ensures if k.Schema? && k.schema == "pg_catalog" then oid == 11
            else 16384 <= oid < 16384 + |After(run, |run|).issued|
  {
    hide Step, Walk;
    HandedIsOwned(run, i, k, oid);
    HandedIsOwned(run, j, k', oid);
  }

  /** Every cached dynamic OID stays below the counter, and `pg_catalog` schemas are 11. */
  lemma CacheBelowCounter(run: seq<Event>, k: Key)
    requires NoWrap(run) && k in After(run, |run|).cache
    ensures var oid := After(run, |run|).cache[k];
            if k.Schema? && k.schema == "pg_catalog" then oid == 11
            else 16384 <= oid < 16384 + |After(run, |run|).issued|
  {
    RunSound(run, |run|);
  }

  /** What a client sees: the pg_catalog schemas are 11 in every row of every run, wrapped or not, and before the
      counter wraps every other object is 16384 or more, shown as the i32 of the same 32 bits. */
  lemma ReportedOids(run: seq<Event>, i: nat, k: Key, oid: int)
    requires Distinct(run) && i < |run| && Reports(run, i, k, oid)
    ensures k.Schema? && k.schema == "pg_catalog" ==> oid == 11
    ensures NoWrap(run) && !(k.Schema? && k.schema == "pg_catalog") ==> 16384 <= oid % 0x1_0000_0000
    ensures k in Taken(run, i) && -0x8000_0000 <= oid < 0x8000_0000 && oid % 0x1_0000_0000 == Taken(run, i)[k]
  {
    hide Step, Walk;
    ReportedIsCached(run, i, k, oid);
    HandedIsOwned(run, i, k, Taken(run, i)[k]);
    if NoWrap(run) { OidsAreNotShared(run, i, i, k, k, Taken(run, i)[k]); }
  }

  // ---------- How long an OID stays put ----------

  /** Exactly when a call that succeeds leaves a cached object in the cache. */
  predicate Keeps(b: Builder, cs: seq<CatalogInfo>, k: Key) {
    Takes(b, cs, k) ||
    match b
    case PgClass => false
    case PgNamespace => k.Catalog? || (k.Table? && Lists(cs, SchemaOf(k)))
    case PgAttribute => !k.Table?
    case PgDatabase => !k.Catalog? && (Lists(cs, Catalog(k.catalog)) || k.catalog == "postgres")
  }

  predicate KeptAt(run: seq<Event>, m: nat, k: Key)
    requires m < |run|
  {
    Report(run, m).None? || (run[m].view.Some? && Keeps(run[m].builder, run[m].view.value, k))
  }

  predicate KeptThrough(run: seq<Event>, i: nat, j: nat, k: Key)
    requires j <= |run|
  {
    forall m :: i <= m < j ==> KeptAt(run, m, k)
  }

  lemma StepKeeps(b: Builder, view: View, st: State, k: Key)
    requires Sound(st) && k in st.cache
    ensures var (st', report) := Step(b, view, st);
            if report.None? then st'.cache == st.cache
            else view.Some? && (k in st'.cache <==> Keeps(b, view.value, k)) &&
                 (k in st'.cache ==> st'.cache[k] == st.cache[k])
  {
    StepFacts(b, view, st);
    assert Owns(k, st.cache[k], st.issued);
  }

  /** `k` owns `oid` through ticket `t`. */
  predicate Ticket(st: State, t: nat, k: Key, oid: Oid) {
    t < |st.issued| && st.issued[t] == k && oid == TicketOid(t)
  }

  /** One call, before the counter goes round: the object is resolved to `oid`, and cached under it after,
      only if the cache held it before; and it stays cached unless the call drops it. */
  lemma StepFate(b: Builder, view: View, st: State, k: Key, oid: Oid, t: nat)
    requires Sound(st) && Ticket(st, t, k, oid) && !InPgCatalog(k)
    requires FIRST_DYNAMIC + |Step(b, view, st).0.issued| <= U32
    ensures var p := Walk(b, st.cache, view, Start(st.issued));
            k in p.taken ==> (p.taken[k] == oid <==> Holds(st, k, oid))
    ensures var (st', report) := Step(b, view, st);
            Holds(st', k, oid) <==> Holds(st, k, oid) && (report.None? || (view.Some? && Keeps(b, view.value, k)))
    ensures Ticket(Step(b, view, st).0, t, k, oid)
  {
    StepFacts(b, view, st);
    var p := Walk(b, st.cache, view, Start(st.issued));
    assert p.issued[t] == k && Step(b, view, st).0.issued == p.issued;
    hide Walk, Keeps, Sound;
    if k in st.cache {
      StepKeeps(b, view, st, k);
    } else if k in p.taken {
      var u :| |st.issued| <= u < |p.issued| && p.issued[u] == k && p.taken[k] == TicketOid(u);
      assert u != t;
    }
  }

  lemma CallFate(run: seq<Event>, j: nat, k: Key, oid: Oid, t: nat)
    requires j < |run| && NoWrap(run) && Ticket(After(run, j), t, k, oid) && !InPgCatalog(k)
    ensures k in Taken(run, j) ==> (Taken(run, j)[k] == oid <==> Holds(After(run, j), k, oid))
    ensures Holds(After(run, j + 1), k, oid) <==> Holds(After(run, j), k, oid) && KeptAt(run, j, k)
    ensures Ticket(After(run, j + 1), t, k, oid)
  {
    RunSound(run, j);
    IssuedGrows(run, j + 1, |run|);
    StepFate(run[j].builder, run[j].view, After(run, j), k, oid, t);
  }

  /** An object has its OID at call `j` exactly when no call since `i` dropped it. */
  lemma {:induction false} Fate(run: seq<Event>, i: nat, j: nat, k: Key, oid: Oid, t: nat)
    requires i <= j <= |run| && NoWrap(run) && !InPgCatalog(k)
    requires Holds(After(run, i), k, oid) && Ticket(After(run, i), t, k, oid)
    ensures Ticket(After(run, j), t, k, oid)
    ensures Holds(After(run, j), k, oid) <==> KeptThrough(run, i, j, k)
    decreases j
  {
    hide Step, Walk, Report, Keeps;
    if i < j {
      Fate(run, i, j - 1, k, oid, t);
      CallFate(run, j - 1, k, oid, t);
      assert KeptThrough(run, i, j, k) <==> KeptThrough(run, i, j - 1, k) && KeptAt(run, j - 1, k);
    }
  }

  lemma OwnerTicket(run: seq<Event>, i: nat, k: Key) returns (t: nat)
    requires i <= |run| && !InPgCatalog(k) && k in After(run, i).cache
    ensures Ticket(After(run, i), t, k, After(run, i).cache[k])
  {
    RunSound(run, i);
    var st := After(run, i);
    assert Owns(k, st.cache[k], st.issued);
    t :| 0 <= t < |st.issued| && st.issued[t] == k && st.cache[k] == TicketOid(t);
  }

  lemma TakenStable(run: seq<Event>, i: nat, j: nat, k: Key, oid: Oid)
    requires NoWrap(run) && i <= j < |run| && !InPgCatalog(k)
    requires Holds(After(run, i), k, oid) && k in Taken(run, j)
    ensures Taken(run, j)[k] == oid <==> KeptThrough(run, i, j, k)
  {
    hide Step, Walk;
    var t := OwnerTicket(run, i, k);
    Fate(run, i, j, k, oid, t);
    CallFate(run, j, k, oid, t);
  }

  /** Two reports show the same OID for an object if and only if no call in between dropped it. */
  lemma StableExactly(run: seq<Event>, i: nat, j: nat, k: Key, oid: int, oid': int)
    requires Distinct(run) && NoWrap(run) && i < j < |run| && !InPgCatalog(k)
    requires Reports(run, i, k, oid) && Reports(run, j, k, oid')
    ensures oid == oid' <==> KeptThrough(run, i + 1, j, k)
  {
    hide Step, Walk;
    ReportedIsCached(run, i, k, oid);
    ReportedIsCached(run, j, k, oid');
    TakenStable(run, i + 1, j, k, Taken(run, i)[k]);
  }

  lemma ListedKeeps(b: Builder, cs: seq<CatalogInfo>, k: Key)
    requires Lists(cs, k)
    ensures Lists(cs, Catalog(k.catalog)) && (k.Table? ==> Lists(cs, SchemaOf(k))) && Keeps(b, cs, k)
  {
    var c :| c in cs && CatalogLists(c, k);
    assert CatalogLists(c, Catalog(k.catalog));
    if k.Table? {
      var s :| s in c.schemas.items && SchemaLists(s, k);
      assert SchemaLists(s, SchemaOf(k)) && CatalogLists(c, SchemaOf(k));
    }
  }

  /** The catalog lists the object at every call from `i` on and before `j` that succeeds. */
  predicate ListedThrough(run: seq<Event>, i: nat, j: nat, k: Key)
    requires j <= |run|
  {
    forall m :: i <= m < j ==> Report(run, m).None? || (run[m].view.Some? && Lists(run[m].view.value, k))
  }

  lemma {:induction false} CachedWhileListed(run: seq<Event>, i: nat, j: nat, k: Key, oid: Oid)
    requires i <= j <= |run| && Holds(After(run, i), k, oid) && ListedThrough(run, i, j, k)
    ensures Holds(After(run, j), k, oid)
    decreases j
  {
    if i < j {
      CachedWhileListed(run, i, j - 1, k, oid);
      RunSound(run, j - 1);
      StepKeeps(run[j - 1].builder, run[j - 1].view, After(run, j - 1), k);
      if Report(run, j - 1).Some? { ListedKeeps(run[j - 1].builder, run[j - 1].view.value, k); }
    }
  }

  lemma TakenWhileListed(run: seq<Event>, i: nat, j: nat, k: Key, oid: Oid)
    requires i <= j < |run| && Holds(After(run, i), k, oid) && ListedThrough(run, i, j, k) && k in Taken(run, j)
    ensures Taken(run, j)[k] == oid
  {
    CachedWhileListed(run, i, j, k, oid);
    RunSound(run, j);
    StepFacts(run[j].builder, run[j].view, After(run, j));
    assert Owns(k, oid, After(run, j).issued);
  }

  /** An object the catalog lists throughout has one OID, fixed or dynamic, wrapped or not. */
  lemma StableWhileListed(run: seq<Event>, i: nat, j: nat, k: Key, oid: int, oid': int)
    requires Distinct(run) && i < j < |run| && ListedThrough(run, i + 1, j, k)
    requires Reports(run, i, k, oid) && Reports(run, j, k, oid')
    ensures oid == oid'
  {
    hide Step, Walk;
    ReportedIsCached(run, i, k, oid);
    ReportedIsCached(run, j, k, oid');
    TakenWhileListed(run, i + 1, j, k, Taken(run, i)[k]);
  }

  /** The "postgres" row of pg_database changes OID exactly when pg_class runs over a catalog without that name. */
  lemma PostgresRowStability(run: seq<Event>, i: nat, j: nat, oid: int, oid': int)
    requires Distinct(run) && NoWrap(run) && i < j < |run|
    requires Reports(run, i, POSTGRES, oid) && Reports(run, j, POSTGRES, oid')
    ensures oid != oid' <==>
            exists m :: i < m < j && run[m].builder.PgClass? && Report(run, m).Some? &&
              !Lists(run[m].view.value, POSTGRES)
  {
    StableExactly(run, i, j, POSTGRES, oid, oid');
    forall m | i < m < j
      ensures !KeptAt(run, m, POSTGRES) <==>
              run[m].builder.PgClass? && Report(run, m).Some? && !Lists(run[m].view.value, POSTGRES)
    {
      RunSound(run, m);
      StepFacts(run[m].builder, run[m].view, After(run, m));
    }
  }

  const LONE := Catalog("datafusion")
  const LONE_CATALOG: View := Some([CatalogInfo("datafusion", Absent)])

  lemma LoneDatabase(st: State)
    ensures var (oid, issued) := ResolveOid(LONE, st.cache, st.issued);
            var (oid', issued') := ResolveOid(POSTGRES, st.cache, issued);
            var (st', report) := Step(PgDatabase, LONE_CATALOG, st);
            LONE in st'.cache && st'.cache[LONE] == oid && st'.issued == issued' &&
            report.Some? && |report.value| == 2 && report.value[0] == DatabaseRow(LONE, AsI32(oid), "datafusion") &&
            report.value[1] == DatabaseRow(POSTGRES, AsI32(oid'), "postgres")
  {
    var cs := LONE_CATALOG.value;
    assert CatalogNames(cs) == ["datafusion"];
    var p := Visit(PgDatabase, st.cache, LONE, ["datafusion"], Start(st.issued));
    assert WalkCatalogs(PgDatabase, st.cache, cs, Start(st.issued)) == p by {
      assert WalkCatalog(PgDatabase, st.cache, cs[0], Start(st.issued)) == p;
      assert WalkCatalogs(PgDatabase, st.cache, cs[1..], p) == p;
    }
  }

  lemma LoneClass(st: State)
    requires LONE in st.cache
    ensures Step(PgClass, LONE_CATALOG, st).0.cache == map[LONE := st.cache[LONE]]
    ensures Step(PgClass, LONE_CATALOG, st).0.issued == st.issued
  {
    var cs := LONE_CATALOG.value;
    var p := Visit(PgClass, st.cache, LONE, [], Start(st.issued));
    assert WalkCatalogs(PgClass, st.cache, cs, Start(st.issued)) == p by {
      assert WalkCatalog(PgClass, st.cache, cs[0], Start(st.issued)) == p;
      assert WalkCatalogs(PgClass, st.cache, cs[1..], p) == p;
    }
  }

  /** A run that StableWhileListed speaks of: the catalog listed throughout keeps its OID. */
  lemma ListedRowStays()
    ensures var run := [Event(PgDatabase, LONE_CATALOG), Event(PgClass, LONE_CATALOG), Event(PgDatabase, LONE_CATALOG)];
            Distinct(run) && ListedThrough(run, 1, 2, LONE) && Reports(run, 0, LONE, 16384) &&
              Reports(run, 2, LONE, 16384)
  {
    var run := [Event(PgDatabase, LONE_CATALOG), Event(PgClass, LONE_CATALOG), Event(PgDatabase, LONE_CATALOG)];
    hide Step, Walk;
    LoneDatabase(After(run, 0));
    assert |After(run, 1).issued| == 2;
    LoneClass(After(run, 1));
    LoneDatabase(After(run, 2));
    assert Lists(LONE_CATALOG.value, LONE) by { assert CatalogLists(LONE_CATALOG.value[0], LONE); }
    var first, last := Report(run, 0).value[0], Report(run, 2).value[0];
    assert first in Report(run, 0).value && (LONE, 16384) in Mentions(first);
    assert last in Report(run, 2).value && (LONE, 16384) in Mentions(last);
  }

  /** Such a run: pg_database, pg_class, pg_database over one catalog named otherwise. */
  lemma PostgresRowMoves()
    ensures var run := [Event(PgDatabase, LONE_CATALOG), Event(PgClass, LONE_CATALOG), Event(PgDatabase, LONE_CATALOG)];
            Reports(run, 0, POSTGRES, 16385) && Reports(run, 2, POSTGRES, 16386)
  {
    var run := [Event(PgDatabase, LONE_CATALOG), Event(PgClass, LONE_CATALOG), Event(PgDatabase, LONE_CATALOG)];
    hide Step, Walk;
    LoneDatabase(After(run, 0));
    assert |After(run, 1).issued| == 2;
    LoneClass(After(run, 1));
    LoneDatabase(After(run, 2));
    var first, last := Report(run, 0).value[1], Report(run, 2).value[1];
    assert first in Report(run, 0).value && (POSTGRES, 16385) in Mentions(first);
    assert last in Report(run, 2).value && (POSTGRES, 16386) in Mentions(last);
  }

  // ---------- Joins across the tables ----------

  /** The catalog is the same at every call from one to the other. */
  ghost predicate SameCatalog(run: seq<Event>, i: nat, j: nat)
    requires i < |run| && j < |run|
  {
    forall m :: (i <= m <= j || j <= m <= i) ==> run[m].view == run[i].view
  }

  lemma SameFixed(run: seq<Event>, i: nat, j: nat, k: Key, k': Key)
    requires i < |run| && j < |run| && k in Taken(run, i) && k' in Taken(run, j)
    ensures InPgCatalog(k) && InPgCatalog(k') ==> Taken(run, i)[k] == Taken(run, j)[k']
  {
    HandedIsOwned(run, i, k, Taken(run, i)[k]);
    HandedIsOwned(run, j, k', Taken(run, j)[k']);
  }

  /** Over an unchanged catalog, equal OIDs mean the same object, in whichever order the calls came. */
  lemma OidsIdentify(run: seq<Event>, i: nat, j: nat, k: Key, oid: int, k': Key, oid': int)
    requires Distinct(run) && NoWrap(run) && i < |run| && j < |run| && SameCatalog(run, i, j)
    requires Reports(run, i, k, oid) && Reports(run, j, k', oid')
    requires run[i].view.Some? && Lists(run[i].view.value, k)
    ensures oid == oid' <==> k == k' || (InPgCatalog(k) && InPgCatalog(k'))
  {
    hide Step, Walk;
    ReportedIsCached(run, i, k, oid);
    ReportedIsCached(run, j, k', oid');
    if k == k' {
      if i < j { StableWhileListed(run, i, j, k, oid, oid'); }
      if j < i { StableWhileListed(run, j, i, k, oid', oid); }
    } else if oid == oid' {
      OidsAreNotShared(run, i, j, k, k', Taken(run, i)[k]);
    } else {
      SameFixed(run, i, j, k, k');
    }
  }

  lemma ReportRows(run: seq<Event>, i: nat)
    requires i < |run| && Report(run, i).Some?
    ensures run[i].view.Some? && Abort !in ViewOps(run[i].builder, run[i].view.value)
    ensures var ops := ViewOps(run[i].builder, run[i].view.value); var rows := Report(run, i).value;
            (forall row :: row in rows ==> FromOps(row, run[i].builder, ops)) &&
            (forall op, name :: op in ops && op.Take? && name in op.labels ==>
                Shows(rows, run[i].builder, op.key, name))
  {
    var st := After(run, i);
    RunSound(run, i);
    StepFacts(run[i].builder, run[i].view, st);
    PlayView(run[i].builder, st.cache, run[i].view.value, Start(st.issued));
    PlayRows(run[i].builder, st.cache, ViewOps(run[i].builder, run[i].view.value), Start(st.issued));
  }

  lemma TableRow(run: seq<Event>, i: nat, row: Row)
    requires i < |run| && Report(run, i).Some? && row in Report(run, i).value
    requires run[i].builder.PgClass? || run[i].builder.PgAttribute?
    ensures BuilderOf(row) == run[i].builder && run[i].view.Some?
    ensures HasColumns(run[i].view.value, row.subject) && Lists(run[i].view.value, row.subject)
  {
    ReportRows(run, i);
    var cs := run[i].view.value;
    var op :| op in ViewOps(run[i].builder, cs) && op.Take? && op.key == row.subject && NameOf(row) in op.labels;
    TableLabelled(run[i].builder, cs, op);
    var c :| c in cs && CatalogDescribes(c, row.subject);
    var s :| s in c.schemas.items && SchemaDescribes(s, row.subject);
    assert SchemaLists(s, row.subject) && CatalogLists(c, row.subject);
  }

  lemma NamespaceMatches(run: seq<Event>, i: nat, j: nat, rel: Row, n: Row)
    requires Distinct(run) && NoWrap(run) && i < |run| && j < |run| && SameCatalog(run, i, j)
    requires Report(run, i).Some? && rel in Report(run, i).value && rel.ClassRow? && rel.subject.Table?
    requires run[i].view.Some? && Lists(run[i].view.value, SchemaOf(rel.subject))
    requires Report(run, j).Some? && n in Report(run, j).value
    ensures var ns := SchemaOf(rel.subject);
            n.oid == rel.relnamespace <==> n.subject == ns || (InPgCatalog(n.subject) && InPgCatalog(ns))
  {
    assert (SchemaOf(rel.subject), rel.relnamespace) in Mentions(rel) && (n.subject, n.oid) in Mentions(n);
    hide Report, Lists, NoWrap, SameCatalog, Distinct;
    OidsIdentify(run, i, j, SchemaOf(rel.subject), rel.relnamespace, n.subject, n.oid);
  }

  /** A pg_namespace report has a row for every schema listed. */
  lemma NamespaceShows(run: seq<Event>, j: nat, cs: seq<CatalogInfo>, ns: Key)
    requires j < |run| && run[j].builder.PgNamespace? && run[j].view == Some(cs) && Report(run, j).Some?
    requires ns.Schema? && Takes(PgNamespace, cs, ns)
    ensures Shows(Report(run, j).value, PgNamespace, ns, ns.schema)
  {
    hide Report, Shows, FromOps, Takes, ViewOps;
    ReportRows(run, j);
    ViewKeys(PgNamespace, cs, ns);
    var op :| op in ViewOps(PgNamespace, cs) && op.Take? && op.key == ns;
    NamespaceLabels(cs, op);
  }

  lemma ListedSchema(cs: seq<CatalogInfo>, k: Key)
    requires k.Table? && Lists(cs, k)
    ensures Lists(cs, SchemaOf(k)) && Takes(PgNamespace, cs, SchemaOf(k))
  {
    ListedKeeps(PgNamespace, cs, k);
  }

  lemma NamespaceFound(run: seq<Event>, i: nat, j: nat, rel: Row, cs: seq<CatalogInfo>, rows: seq<Row>)
    requires Distinct(run) && NoWrap(run) && i < |run| && j < |run| && SameCatalog(run, i, j)
    requires Report(run, i).Some? && rel in Report(run, i).value && rel.ClassRow? && rel.subject.Table?
    requires run[i].view == Some(cs) && run[j].view == Some(cs) && run[j].builder.PgNamespace?
    requires Lists(cs, SchemaOf(rel.subject)) && Takes(PgNamespace, cs, SchemaOf(rel.subject))
    requires Report(run, j) == Some(rows)
    ensures exists n :: n in rows && n.NamespaceRow? && n.oid == rel.relnamespace &&
                        n.subject == SchemaOf(rel.subject) && n.nspname == rel.subject.schema
  {
    assert SchemaOf(rel.subject).Schema? && SchemaOf(rel.subject).schema == rel.subject.schema;
    var ns := SchemaOf(rel.subject);
    hide *;
    NamespaceShows(run, j, cs, ns);
    var n := ShownNamespace(rows, ns, ns.schema);
    NamespaceMatches(run, i, j, rel, n);
  }

  lemma ShownNamespace(rows: seq<Row>, k: Key, name: string) returns (n: Row)
    requires Shows(rows, PgNamespace, k, name)
    ensures n in rows && n.NamespaceRow? && n.subject == k && n.nspname == name
  {
    n :| n in rows && BuilderOf(n) == PgNamespace && n.subject == k && NameOf(n) == name;
  }

  /** `pg_class.relnamespace = pg_namespace.oid` finds the table's schema and nothing else. */
  lemma NamespaceJoin(run: seq<Event>, i: nat, j: nat, rel: Row)
    requires Distinct(run) && NoWrap(run) && i < |run| && j < |run| && SameCatalog(run, i, j)
    requires run[i].builder.PgClass? && Report(run, i).Some? && rel in Report(run, i).value
    requires run[j].builder.PgNamespace? && Report(run, j).Some?
    ensures rel.ClassRow? && rel.subject.Table?
    ensures exists n :: n in Report(run, j).value && n.NamespaceRow? && n.oid == rel.relnamespace &&
                        n.subject == SchemaOf(rel.subject) && n.nspname == rel.subject.schema
    ensures forall n :: n in Report(run, j).value ==>
              (n.oid == rel.relnamespace <==>
               n.subject == SchemaOf(rel.subject) ||
                 (InPgCatalog(n.subject) && InPgCatalog(SchemaOf(rel.subject))))
  {
    assert run[j].view == run[i].view;
    hide *;
    TableRow(run, i, rel);
    var cs, rows := run[i].view.value, Report(run, j).value;
    RowShape(rel, cs, PgClass);
    ListedSchema(cs, rel.subject);
    var ns := SchemaOf(rel.subject);
    forall n | n in rows
      ensures n.oid == rel.relnamespace <==> n.subject == ns || (InPgCatalog(n.subject) && InPgCatalog(ns))
    {
      NamespaceMatches(run, i, j, rel, n);
    }
    NamespaceFound(run, i, j, rel, cs, rows);
  }

  lemma RelMatches(run: seq<Event>, i: nat, j: nat, att: Row, rel: Row)
    requires Distinct(run) && NoWrap(run) && i < |run| && j < |run| && SameCatalog(run, i, j)
    requires Report(run, i).Some? && att in Report(run, i).value && att.AttributeRow? && att.subject.Table?
    requires run[i].view.Some? && Lists(run[i].view.value, att.subject)
    requires Report(run, j).Some? && rel in Report(run, j).value
    ensures rel.oid == att.oid <==> rel.subject == att.subject
  {
    assert (att.subject, att.oid) in Mentions(att) && (rel.subject, rel.oid) in Mentions(rel);
    hide Report, Lists, NoWrap, SameCatalog, Distinct;
    OidsIdentify(run, i, j, att.subject, att.oid, rel.subject, rel.oid);
  }

  /** A pg_class report has a row for every table with columns. */
  lemma ClassShows(run: seq<Event>, j: nat, cs: seq<CatalogInfo>, k: Key)
    requires j < |run| && run[j].builder.PgClass? && run[j].view == Some(cs) && Report(run, j).Some?
    requires k.Table? && HasColumns(cs, k)
    ensures Shows(Report(run, j).value, PgClass, k, k.table)
  {
    hide *;
    ReportRows(run, j);
    ClassLabels(cs, k);
    var op := Take(k, [k.table]);
    assert op in ViewOps(PgClass, cs) && op.Take? && k.table in op.labels;
  }

  lemma RowShape(row: Row, cs: seq<CatalogInfo>, b: Builder)
    requires BuilderOf(row) == b && HasColumns(cs, row.subject)
    ensures row.subject.Table? && (b.PgAttribute? <==> row.AttributeRow?) && (b.PgClass? <==> row.ClassRow?)
  {
  }

  lemma ShownRow(rows: seq<Row>, k: Key, name: string)
    requires Shows(rows, PgClass, k, name)
    ensures exists rel :: rel in rows && rel.ClassRow? && rel.subject == k && rel.relname == name
  {
  }

  /** `pg_attribute.attrelid = pg_class.oid` finds the column's table and nothing else. */
  lemma AttributeJoin(run: seq<Event>, i: nat, j: nat, att: Row)
    requires Distinct(run) && NoWrap(run) && i < |run| && j < |run| && SameCatalog(run, i, j)
    requires run[i].builder.PgAttribute? && Report(run, i).Some? && att in Report(run, i).value
    requires run[j].builder.PgClass? && Report(run, j).Some?
    ensures att.AttributeRow? && att.subject.Table?
    ensures exists rel :: rel in Report(run, j).value && rel.ClassRow? && rel.oid == att.oid &&
                          rel.subject == att.subject && rel.relname == att.subject.table
    ensures forall rel :: rel in Report(run, j).value ==> (rel.oid == att.oid <==> rel.subject == att.subject)
  {
    assert run[j].view == run[i].view;
    hide *;
    TableRow(run, i, att);
    var cs, k, rels := run[i].view.value, att.subject, Report(run, j).value;
    RowShape(att, cs, PgAttribute);
    forall rel | rel in rels ensures rel.oid == att.oid <==> rel.subject == k {
      RelMatches(run, i, j, att, rel);
    }
    ClassShows(run, j, cs, k);
    ShownRow(rels, k, k.table);
  }
}
