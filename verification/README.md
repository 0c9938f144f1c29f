# Model of datafusion-postgres

A model of the parts of datafusion-postgres whose correctness is not visible in any single function,
with proofs of what they keep. `dafny verify dfyconfig.toml` checks all of it.

**OIDs of the catalog tables** (`OidAllocator`, `OidBuilders`, `OidWalk`, `OidRows`, `OidRuns`). Four builders
share one u32 counter and one cache. `PgCatalogSchemaProvider` is the class with their loops; each call is proved
equal to one step of a transition system whose environment chooses the catalog, failures and all, anew before
every call. `OidRuns` then proves what holds over every run.

**The SQL compatibility compiler** (`TokenScanner`, `Sql*`). The token pass is proved against a declarative cut of
its input. Five rewrite rules act on a tree of kinds and children under an explicit visitor (visit a node once, then
descend into what the visit left there); they are given normal forms (`SqlNormalForms`, `SqlCollate`,
`SqlProjection`), a three-valued evaluator (`SqlSemantics`, `SqlMeaning`) with the catalog lookups (`SqlRegclass`,
`SqlRegCast`), the order in which the parser runs them (`SqlPipeline`), what that whole run keeps (`SqlPreservation`,
`SqlSelected`), the kinds of node the lookups are made of (`SqlTemplates`), what the rules do to single nodes told
without their own definitions (`SqlNodes`), and a small catalog on which to see it (`SqlExamples`).

**Identifiers** (`QuoteIdent`). `quote_ident` and `parse_ident` of section 9.4 of the PostgreSQL documentation,
as a printer and a parser of lists of names. Which characters are letters is a parameter; `Sensible` only says that
the double quote and the dot are not.

**Roles** (`Roles`, `RoleChanges`, `Auth`). The recursive permission search over a mutable inheritance graph, against
reachability. `Search` carries a bound on the call depth so that it is total; the methods carry the bound as a ghost
parameter and may be called wherever some bound is enough, which on an acyclic graph is everywhere.

**Encoders and arithmetic** (`CompositeBinary`, `DecimalText`, `Intervals`, `WidthBucket`, `Parameters`). Back-patched
record framing, the text of 256-bit decimals, intervals both ways, both forms of `width_bucket` (section 9.3 of the
PostgreSQL documentation) in exact arithmetic, and the types and order of query parameters.

**The simple-query handler** (`SimpleQuery`, `QueryRuns`). The statement loop over the hook chain, and the
transaction status over runs of batches. Hooks, cursors, SET/SHOW and the engine are arbitrary functions of a world.

## Where the code differs from its documentation

- `StripCollate` says COLLATE is stripped; of n directly nested ones n/2 stay (`SqlCollate.ChainHalved`).
- The comment on the pass order says that casts come first so that their subqueries get LIMIT 1; for a placeholder
  the subquery is taken for a correlated one and becomes NULL (`SqlRegCast.CastItem`).
- `RemoveSubqueryFromProjection` says supported subqueries get `LIMIT 1`; those in the branches of a UNION, INTERSECT or
  EXCEPT do not (`SqlProjection.UnionLeftUnlimited`, and `SqlProjection.StampedExactly` for when all are in order).
- The ANY rule reads a braced string literal as an array, but not through a COLLATE, which a later rule strips
  (`SqlMeaning.CollatedLiteralMisread`; `SqlMeaning.AnyAllNodeExactly` and `SqlMeaning.CollateNodeExactly` for when the
  value is the same all the same).
- `RewriteRegCastToSubquery` says a cast becomes its lookup. For a name with several rows, as 'max'::regproc, the lookup
  is a scalar subquery of several rows, an error anywhere but in a SELECT item (`SqlRegCast.CastExactly`,
  `SqlRegCast.LimitedLookup`); and a scalar subquery in a SELECT item that casts to regclass becomes NULL
  (`SqlRegCast.RegclassDropsItem`).
- Names cast to regnamespace, regtype and regproc are looked up as spelled, so a quoted or qualified one, as
  'pg_catalog.array_in'::regproc, is not found (`SqlExamples.QualifiedName`).
- `resolve_oid` promises stable OIDs; the synthetic "postgres" row has one only as long as pg_class is not read
  (`OidRuns.PostgresRowStability`).
- `quote_ident` treats a name that starts and ends with a double quote as quoted, and then doubles every quote in it;
  no such name reads back. Strict `parse_ident` rejects any dot after a quoted part (`QuoteIdent.StrictRoundTripExactly`).
- A numeric string cast to a resolvable type is a number when written as a literal, but is looked up as a name
  when bound to a placeholder (`SqlRegCast.CastExactly`).
- The permission search is cut off by nothing: with a cycle in front of the matching role an authorized user gets no
  answer (`Roles.AuthorizedWithoutAnswer`, and `Roles.DecisionExactly` for when there is one).
- The equal-width form of `width_bucket` takes a column of bounds and uses its first row (`WidthBucket.OwnBoundsExactly`);
  the thresholds form rejects every batch of other than one row (`WidthBucket.ThresholdsForm`).
- The sign of a negative 256-bit decimal is counted among its digits, so small magnitudes come out malformed
  (`DecimalText.EncodeDecimal`); a negative scale is taken for one of more than four thousand million places.

## Model

| member | source | states |
|---|---|---|
| OidBuilders.PgCatalogSchemaProvider.constructor | datafusion-pg-catalog/src/pg_catalog.rs:287-297 | a new schema provider starts with the counter at 16384 and an empty cache |
| OidBuilders.PgCatalogSchemaProvider.Resolve | datafusion-pg-catalog/src/pg_catalog.rs:223-254 | an OID is 11 for a schema named pg_catalog, else that of the old cache, else the next u32 ticket, and only the last takes a ticket |
| OidBuilders.PgCatalogSchemaProvider.BuildPgClass | datafusion-pg-catalog/src/pg_catalog/pg_class.rs:116-205 | one pg_class call is one step: same tickets, same rows, wholesale cache swap, and an early exit keeps the cache but not the counter |
| OidBuilders.PgCatalogSchemaProvider.ClassSchemas | datafusion-pg-catalog/src/pg_catalog/pg_class.rs:127-202 | the schema loop of pg_class stops where the specification of the walk stops, with the same tickets, entries and rows |
| OidBuilders.PgCatalogSchemaProvider.ClassTables | datafusion-pg-catalog/src/pg_catalog/pg_class.rs:136-200 | the table loop likewise; a table without a readable schema takes its OID but gives no row |
| OidBuilders.PgCatalogSchemaProvider.BuildPgNamespace | datafusion-pg-catalog/src/pg_catalog/pg_namespace.rs:61-91 | one pg_namespace call is one step: all schemas replaced, tables of vanished schemas dropped, catalogs kept |
| OidBuilders.PgCatalogSchemaProvider.BuildPgAttribute | datafusion-pg-catalog/src/pg_catalog/pg_attribute.rs:104-188 | one pg_attribute call is one step: vanished tables dropped, every other key kept, one row for each column |
| OidBuilders.PgCatalogSchemaProvider.AttributeSchemas | datafusion-pg-catalog/src/pg_catalog/pg_attribute.rs:116-177 | the schema loop of pg_attribute follows the specification of the walk, failing where it fails |
| OidBuilders.PgCatalogSchemaProvider.AttributeTables | datafusion-pg-catalog/src/pg_catalog/pg_attribute.rs:124-174 | the table loop likewise: the columns of a table all carry its one OID |
| OidBuilders.PgCatalogSchemaProvider.BuildPgDatabase | datafusion-pg-catalog/src/pg_catalog/pg_database.rs:89-184 | one pg_database call is one step: catalogs replaced, keys of vanished catalogs dropped, "postgres" added when no catalog has that name |
| OidBuilders.PgCatalogSchemaProvider.DatabaseCatalogs | datafusion-pg-catalog/src/pg_catalog/pg_database.rs:95-116 | the catalog loop, and the names it has listed |
| OidBuilders.PgCatalogSchemaProvider.DatabaseDefault | datafusion-pg-catalog/src/pg_catalog/pg_database.rs:120-142 | the synthetic entry takes its OID from the same resolver as every other |
| OidRuns.OidsAreNotShared | datafusion-pg-catalog/src/pg_catalog.rs:223-254 | in every run of the four builders over changing catalogs, failing calls included, an OID given to two keys before the counter wraps means one key, or two schemas named pg_catalog; those are 11, and every other OID lies in the issued range from 16384 |
| OidRuns.TicketsCollide | datafusion-pg-catalog/src/pg_catalog.rs:252-252 | two tickets give one OID exactly when they are a whole number of u32 rounds apart |
| OidRuns.CacheBelowCounter | datafusion-pg-catalog/src/pg_catalog.rs:223-254 | after every run each cached OID is 11 for a pg_catalog schema and otherwise at least 16384 and below the counter |
| OidRuns.ReportedOids | datafusion-pg-catalog/src/pg_catalog.rs:223-254 | in the rows a client sees every schema named pg_catalog is 11, wrapped or not; before the wrap every other OID is 16384 or more; the i32 shown has the 32 bits of the OID resolved |
| OidRuns.ReportedIsCached | datafusion-pg-catalog/src/pg_catalog.rs:242-254 | an OID in a report is the one its call resolved for that object, and the cache holds it afterwards |
| OidRuns.StepKeeps | datafusion-pg-catalog/src/pg_catalog.rs:242-254 | a successful call leaves a cached object cached, under its OID, exactly when it lists the object or its retain rule spares it; a failing call changes nothing cached |
| OidRuns.StableExactly | datafusion-pg-catalog/src/pg_catalog.rs:230-254 | two reports show one dynamic OID for an object if and only if no successful call in between dropped its key |
| OidRuns.StableWhileListed | datafusion-pg-catalog/src/pg_catalog.rs:230-254 | an object listed by the catalog at every call in between keeps its OID in every report, across all interleavings and counter wraps |
| OidRuns.ListedRowStays | datafusion-pg-catalog/src/pg_catalog.rs:230-254 | such a run: pg_database, pg_class, pg_database report 16384 for the catalog both times |
| OidRuns.PostgresRowStability | datafusion-pg-catalog/src/pg_catalog/pg_database.rs:118-125 | the "postgres" row changes OID if and only if pg_class ran successfully in between over a catalog list without that name |
| OidRuns.PostgresRowMoves | datafusion-pg-catalog/src/pg_catalog/pg_database.rs:118-125 | such a run: pg_database, pg_class, pg_database over one catalog of another name reports 16385, then 16386 |
| OidRuns.OidsIdentify | datafusion-pg-catalog/src/pg_catalog.rs:230-254 | over an unchanged catalog two reported OIDs are equal exactly when their objects are, up to the pg_catalog schemas |
| OidRuns.NamespaceJoin | datafusion-pg-catalog/src/pg_catalog/pg_class.rs:116-205 | over an unchanged catalog each pg_class row joins to the pg_namespace row of its schema and to no other, whichever call came first |
| OidRuns.AttributeJoin | datafusion-pg-catalog/src/pg_catalog/pg_attribute.rs:104-188 | over an unchanged catalog each pg_attribute row joins to the pg_class row of its table and to no other |
| OidRows.ViewKeys | datafusion-pg-catalog/src/pg_catalog/pg_class.rs:121-202 | each builder takes OIDs for exactly the objects of its kinds that the catalog lists |
| OidRows.PlayDescribes | datafusion-pg-catalog/src/pg_catalog/pg_class.rs:121-202 | every OID in a row, the parent OID of a pg_class row included, is the one taken for that very object in the same call |
| TokenScanner.PreparedExactly | datafusion-pg-catalog/src/sql/parser.rs:342-361 | the scanner sees one token for each that is not whitespace, in order: the unquoted keyword ROLLBACK where the client wrote ABORT, and any other token unchanged |
| TokenScanner.TryPattern | datafusion-pg-catalog/src/sql/parser.rs:382-410 | the inner loop succeeds exactly when the pattern occurs at this position with separators inside ignored, and then stops at the end of that occurrence |
| TokenScanner.NextPiece | datafusion-pg-catalog/src/sql/parser.rs:366-424 | one turn of the outer loop takes a separator, or the first table entry that occurs here, or the token itself, and always advances |
| TokenScanner.MaybeReplaceTokens | datafusion-pg-catalog/src/sql/parser.rs:338-428 | the result is the output of a leftmost, first-entry, non-overlapping cut of the prepared input |
| TokenScanner.CutUnique | datafusion-pg-catalog/src/sql/parser.rs:363-424 | there is only one such cut |
| TokenScanner.CutCovers | datafusion-pg-catalog/src/sql/parser.rs:363-424 | the pieces of the cut, put together, are the input: nothing is lost, swallowed or read twice |
| TokenScanner.SubstConsumes | datafusion-pg-catalog/src/sql/parser.rs:412-420 | a replaced stretch is at least as long as its pattern, and so is never empty |
| TokenScanner.NothingMatches | datafusion-pg-catalog/src/sql/parser.rs:363-427 | input in which no entry occurs passes unchanged |
| TokenScanner.OneReplacement | datafusion-pg-catalog/src/sql/parser.rs:412-427 | where an entry is taken at one place only, the input before and after it passes unchanged and its replacement stands in between |
| SqlStrings.ArrayLiteralRoundTrip | datafusion-pg-catalog/src/sql/rules.rs:343-372 | the braced form of a list of items splits back into that list if and only if no item is empty, holds a comma or has white space at an end, and the first does not begin nor the last end with a brace |
| SqlStrings.BracedExactly | datafusion-pg-catalog/src/sql/rules.rs:343-350 | a string literal is read as an array if and only if it is white space, a brace, anything, a brace, and white space, over the 25 Unicode white-space characters |
| SqlStrings.PaddedItems | datafusion-pg-catalog/src/sql/rules.rs:349-352 | the white space around it does not change its items |
| SqlStrings.NestedBraces | datafusion-pg-catalog/src/sql/rules.rs:351-352 | braces and spaces inside, at either end, are dropped with the outer ones, however many, and what is left is split at commas |
| SqlVisitor.VisitShrinks | datafusion-pg-catalog/src/sql/rules.rs:394-439 | a visit that changes a node leaves strictly fewer nodes for the rule to change, so visit-then-descend ends for all five rules |
| SqlNormalForms.WalkClean | datafusion-pg-catalog/src/sql/rules.rs:394-439 | one walk of the ANY/ALL, operator or cast rule leaves it nothing to do at any depth |
| SqlNormalForms.WalkIdempotent | datafusion-pg-catalog/src/sql/rules.rs:394-439 | a second walk of any of the three changes nothing |
| SqlNormalForms.AnyAllNormalForm | datafusion-pg-catalog/src/sql/rules.rs:397-439 | no = ANY and no <> ALL is left anywhere |
| SqlNodes.CastsGone | datafusion-pg-catalog/src/sql/rules.rs:958-1052 | after the pass there is at no place of the tree a cast of a string literal or placeholder to regclass, regnamespace, regtype or regproc, written in any case, with or without pg_catalog before it |
| SqlNodes.CastVisitedExactly | datafusion-pg-catalog/src/sql/rules.rs:958-1052 | the rule changes a node if and only if it is such a cast |
| SqlNodes.CastBecomes | datafusion-pg-catalog/src/sql/rules.rs:989-1052 | a literal of digits becomes the number, any other operand the lookup in the catalog table of its type |
| SqlNormalForms.WalkKeeps | datafusion-pg-catalog/src/sql/rules.rs:397-439 | every other quantified comparison and every other cast to the four types is still there: the multiset of them is the same before and after |
| SqlNormalForms.WalkAt | datafusion-pg-catalog/src/sql/rules.rs:394-439 | it is also still in its place: wherever no node on the way is changed by the rule, the node at a path is the walked node of that path, and one the rule leaves alone keeps its kind and its operands, each walked |
| SqlNormalForms.SubstituteAt | datafusion-pg-catalog/src/sql/rules.rs:1010-1030 | the operand stands at every placeholder of the template and nowhere else |
| SqlMeaning.WalkPreserves | datafusion-pg-catalog/src/sql/rules.rs:394-439 | a walk whose visits each preserve the value of the node they change preserves the value of the whole tree |
| SqlMeaning.AnyAllPreserves | datafusion-pg-catalog/src/sql/rules.rs:343-439 | the ANY/ALL pass preserves evaluation in every scope under three-valued logic, with array_contains as membership and a braced literal read as its trimmed comma-split items; where COLLATE leaves a literal a literal, the rewritten comparisons with a braced one under it must each be of the kind that keeps its value |
| SqlMeaning.AnyAllNodeExactly | datafusion-pg-catalog/src/sql/rules.rs:343-439 | which they do, `= ANY` and `<> ALL` alike, if and only if they compare NULL with at least one item |
| SqlMeaning.CollatedLiteralMisread | datafusion-pg-catalog/src/sql/rules.rs:343-372 | the input that fails otherwise: a comparison with ANY of a collated braced literal, which the ANY pass takes for a string if it was an array, and stripping the COLLATE makes an array if it was a string |
| SqlMeaning.AnyIsContains | datafusion-pg-catalog/src/sql/rules.rs:402-412 | x = ANY of an array is three-valued membership, NULL elements included |
| SqlMeaning.AllIsNotContains | datafusion-pg-catalog/src/sql/rules.rs:419-433 | x <> ALL of an array is its negation |
| SqlMeaning.CollatePreserves | datafusion-pg-catalog/src/sql/rules.rs:786-792 | stripping COLLATE preserves evaluation when collation does not matter; where COLLATE makes a literal an expression, the comparisons with ANY or ALL in which a braced one is laid bare must each be of the kind that keeps its value |
| SqlMeaning.CollateNodeExactly | datafusion-pg-catalog/src/sql/rules.rs:786-792 | which they do if and only if the comparison with the items of the literal is undecided |
| SqlMeaning.OperatorPreserves | datafusion-pg-catalog/src/sql/rules.rs:829-849 | mapping OPERATOR(pg_catalog.~) and its three relatives preserves evaluation |
| SqlNodes.OperatorBecomes | datafusion-pg-catalog/src/sql/rules.rs:829-849 | ~, ~*, !~ and !~* in the schema pg_catalog become the built-in operators of that spelling over the same operands, and no other node changes |
| SqlNodes.OperatorsGone | datafusion-pg-catalog/src/sql/rules.rs:829-849 | after the pass none of the four is left in that schema at any place of the tree |
| SqlCollate.ChainHalved | datafusion-pg-catalog/src/sql/rules.rs:786-792 | one pass leaves n/2 of n directly nested COLLATEs, over the core rewritten as on its own |
| SqlCollate.CollateFreeExactly | datafusion-pg-catalog/src/sql/rules.rs:786-792 | one pass leaves no COLLATE if and only if no two were directly nested |
| SqlCollate.CollateCommutes | datafusion-pg-catalog/src/sql/rules.rs:786-849 | stripping COLLATE and mapping operators give the same tree in either order |
| SqlRegCast.EvalLookup | datafusion-pg-catalog/src/sql/rules.rs:913-930 | the lookup subquery of regnamespace, regtype and regproc is the oid of the only row of that name, NULL when there is none and an error when there are several, in every catalog whose rows have an oid and a name |
| SqlRegclass.EvalRegclass | datafusion-pg-catalog/src/sql/rules.rs:908-912 | the regclass subquery, with its join, its derived table of name parts and its conditions, is the oid of the only relation of that name in a namespace of the schema asked for, NULL when there is none and an error when there are several |
| SqlRegclass.RelationExactly | datafusion-pg-catalog/src/sql/rules.rs:908-912 | so it finds the relation that the name means if and only if it finds at most one, and that in the first namespace of the schema |
| SqlRegCast.OneOfEach | datafusion-pg-catalog/src/sql/rules.rs:908-912 | for that it is enough that at most one namespace has the name of the schema and at most one relation in it the name asked for; nothing else in the catalog matters |
| SqlRegCast.LookupExactly | datafusion-pg-catalog/src/sql/rules.rs:908-930 | for all four types the rows found are what the cast means if and only if the name looked up is not ambiguous |
| SqlRegclass.SubstituteRegclass | datafusion-pg-catalog/src/sql/rules.rs:1010-1030 | the instantiated regclass template is the template with the operand inside its derived table and all else as it was |
| SqlRegCast.RegCastPreserves | datafusion-pg-catalog/src/sql/rules.rs:958-1052 | the cast pass preserves evaluation of every tree each of whose name casts resolves, for all four types and in every catalog: numerals as numbers, names as catalog lookups |
| SqlRegCast.CastExactly | datafusion-pg-catalog/src/sql/rules.rs:992-1052 | a cast of a well-formed name keeps its value if and only if it resolves: the name must not be ambiguous, and a placeholder bound to a numeral must name one row with that very number as its oid |
| SqlRegCast.OverloadedName | datafusion-pg-catalog/src/sql/rules.rs:1032-1052 | the names for which it does not: where two rows share the name, the cast means the first and its lookup is an error |
| SqlExamples.OverloadedMax | datafusion-pg-catalog/src/sql/rules.rs:921-930 | such an input: over two functions max, 'max'::regproc means 2115 and is rewritten to an error |
| SqlRegCast.LimitedLookup | datafusion-pg-catalog/src/sql/rules.rs:1115-1138 | stamped with LIMIT 1, as in a SELECT item, the lookup finds what the cast means even then |
| SqlRegCast.RawName | datafusion-pg-catalog/src/sql/rules.rs:913-930 | regnamespace, regtype and regproc compare the name as it is spelled; that is PostgreSQL's reading by parts where parse_ident gives the name back as its only part |
| SqlRegCast.SpelledName | datafusion-pg-catalog/src/sql/rules.rs:913-930 | and for any name, quoted or qualified, they find NULL if and only if no row has that very spelling as its name |
| SqlExamples.QualifiedName | datafusion-pg-catalog/src/sql/rules.rs:921-930 | such an input: 'pg_catalog.array_in'::regproc is NULL, while by its parts it is the function 750 |
| SqlRegCast.TemplateCorrelation | datafusion-pg-catalog/src/sql/rules.rs:1010-1030 | an instantiated template, that of regclass included, is correlated exactly when the operand is a placeholder |
| SqlRegCast.CastItem | datafusion-pg-catalog/src/sql/parser.rs:319-325 | a cast in a SELECT item to any of the four types becomes its lookup with LIMIT 1 for a literal, but NULL for a placeholder |
| SqlRegCast.RegclassCorrelates | datafusion-pg-catalog/src/sql/rules.rs:1073-1113 | whatever holds a cast to regclass counts as correlated once it is looked up, under any aliases without c, because the lookup speaks of c.oid |
| SqlRegCast.RegclassDropsItem | datafusion-pg-catalog/src/sql/parser.rs:319-326 | so a scalar subquery in a SELECT item with such a cast anywhere in it, and no c among the tables of its FROM, becomes NULL |
| SqlProjection.WalkCorrelation | datafusion-pg-catalog/src/sql/rules.rs:1115-1138 | replacing subqueries by NULL and adding LIMIT 1, at every depth, never makes a tree correlated |
| SqlProjection.ProjectionNormalForm | datafusion-pg-catalog/src/sql/rules.rs:1073-1184 | every subquery standing directly as an item of a SELECT that is the body of a query, at every depth, ends with a limit or fetch and passes the correlation check, and a second pass changes nothing |
| SqlProjection.StampedExactly | datafusion-pg-catalog/src/sql/rules.rs:1140-1184 | so does every one of every SELECT, branches of set operations included, if and only if the branches had theirs in order before the pass: with a limit or fetch, and with no correlation outside the items that the pass drops |
| SqlProjection.LeftOverExactly | datafusion-pg-catalog/src/sql/rules.rs:1073-1138 | what counts as correlated after the pass is what counted before it outside the dropped items |
| SqlNodes.ItemBecomes | datafusion-pg-catalog/src/sql/rules.rs:1073-1180 | a scalar subquery item becomes NULL if and only if at some place in it stands a placeholder or a qualified name headed by the alias of no table in its FROM; otherwise it gets LIMIT 1 unless it has a LIMIT or a FETCH |
| SqlProjection.UnionUntouched | datafusion-pg-catalog/src/sql/rules.rs:1143-1144 | the branches of a UNION are passed over: a clean scalar subquery in them keeps having no limit |
| SqlProjection.UnionLeftUnlimited | datafusion-pg-catalog/src/sql/rules.rs:1143-1144 | the input: (SELECT a FROM t) selected on both sides of a UNION is uncorrelated, without a limit, and stays so |
| SqlPipeline.WalkAll | datafusion-pg-catalog/src/sql/rules.rs:394-1184 | no pass creates a quantified comparison, a COLLATE or a schema-qualified operator anywhere |
| SqlPipeline.StaysClean | datafusion-pg-catalog/src/sql/parser.rs:314-330 | what the ANY/ALL, COLLATE or operator pass has nothing to do in, no other pass gives it work in |
| SqlPipeline.RewriteNormalForm | datafusion-pg-catalog/src/sql/parser.rs:467-473 | after the five passes in the order of the parser the four normal forms hold together: no pass undoes an earlier one; that of scalar subqueries holds in branches of set operations too exactly when these were in order before the last pass |
| SqlPipeline.RewriteFixed | datafusion-pg-catalog/src/sql/parser.rs:467-473 | where no two COLLATEs were directly nested, the result is a fixed point of every pass and of the whole pipeline |
| SqlPreservation.ResolvePreserves | datafusion-pg-catalog/src/sql/parser.rs:467-473 | the first four passes, one after the other, preserve evaluation in one and the same semantics, of every tree whose name casts resolve and whose comparisons with collated literals keep their values |
| SqlPreservation.CastsReadyExactly | datafusion-pg-catalog/src/sql/parser.rs:314-330 | the casts that the fourth pass meets, on a tree three passes have changed, resolve if and only if the casts of the first tree do, COLLATE on their operands aside |
| SqlPreservation.StampingPreserves | datafusion-pg-catalog/src/sql/rules.rs:1073-1184 | the last pass preserves evaluation of every tree in which it replaces no subquery by NULL and limits only those that have at most one row |
| SqlPreservation.RewritePreserves | datafusion-pg-catalog/src/sql/parser.rs:467-473 | all five passes together preserve evaluation under these conditions |
| SqlSelected.SelectedNames | datafusion-pg-catalog/src/sql/parser.rs:319-326 | which a SELECT of any number of casts of names meets: wherever each resolves, it shows the same row before and after the whole pipeline |
| SqlExamples.SmallSelected | datafusion-pg-catalog/src/sql/rules.rs:908-912 | such a SELECT: that of 't'::regclass over the small catalog |
| SqlExamples.SmallResolved | datafusion-pg-catalog/src/sql/rules.rs:908-912 | its conditions can be met: over two schemas and one relation t, 't'::regclass is the oid of t before and after the four passes |
| SqlPipeline.CastsBeforeStamping | datafusion-pg-catalog/src/sql/parser.rs:322-326 | with the last two passes swapped, every name cast that is a SELECT item after stamping, wherever it stands, would end in its place as a subquery without limit |
| SqlPipeline.CollateBeforeCasts | datafusion-pg-catalog/src/sql/parser.rs:322-325 | with COLLATE stripped after the casts, a tree with the cast of a collated name anywhere would keep a name cast |
| QuoteIdent.ParseIdentString | datafusion-pg-catalog/src/pg_catalog/quote_ident_udf.rs:149-216 | the loop computes the stateful scan it is specified by, all four errors included |
| QuoteIdent.RoundTripExactly | datafusion-pg-catalog/src/pg_catalog/quote_ident_udf.rs:149-216 | non-strict parse_ident_string of dot-joined quote_ident gives back the list if and only if it is not empty, no name is empty and none both starts and ends with a double quote |
| QuoteIdent.StrictRoundTripExactly | datafusion-pg-catalog/src/pg_catalog/quote_ident_udf.rs:149-216 | strict parse_ident_string does so if and only if in addition no name before the last was quoted |
| QuoteIdent.FunctionRoundTripExactly | datafusion-pg-catalog/src/pg_catalog/quote_ident_udf.rs:100-141 | through the SQL function, which makes every non-strict error an empty array, the same lists come back and the empty list besides |
| QuoteIdent.NameItself | datafusion-pg-catalog/src/pg_catalog/quote_ident_udf.rs:149-216 | a name is read as itself, in one part, if and only if it is not empty and holds neither a double quote nor a dot |
| QuoteIdent.StrictAgrees | datafusion-pg-catalog/src/pg_catalog/quote_ident_udf.rs:149-216 | whatever strict mode accepts it reads as non-strict mode does |
| QuoteIdent.PartsNonEmpty | datafusion-pg-catalog/src/pg_catalog/quote_ident_udf.rs:149-216 | parse_ident never returns an empty part |
| QuoteIdent.QuoteExactly | datafusion-pg-catalog/src/pg_catalog/quote_ident_udf.rs:18-52 | quote_ident returns a name as it is if and only if it is a letter or underscore followed by letters, digits and underscores and no reserved word; any other name has its quotes doubled and two put around it, unless it begins and ends with one |
| QuoteIdent.EscapeExactly | datafusion-pg-catalog/src/pg_catalog/quote_ident_udf.rs:27-30 | every double quote is doubled where it stands and nothing else changes |
| QuoteIdent.ReservedQuoted | datafusion-pg-catalog/src/pg_catalog/quote_ident_udf.rs:246-340 | ALL, SELECT, USER and WITH, in any case, are quoted |
| Auth.AuthManager.constructor | datafusion-postgres/src/auth.rs:25-61 | the manager starts with the superuser postgres and the role of that name |
| Auth.AuthManager.AddUser | datafusion-postgres/src/auth.rs:64-68 | one user is replaced or added, no other changed |
| Auth.AuthManager.AddRole | datafusion-postgres/src/auth.rs:71-75 | one role is replaced or added, no other changed |
| Auth.AuthManager.GrantPermission | datafusion-postgres/src/auth.rs:131-159 | a grant is appended to the role, or the role is unknown and nothing changes |
| Auth.AuthManager.RevokePermission | datafusion-postgres/src/auth.rs:162-183 | every grant of exactly that permission and resource is removed from the role |
| Auth.AuthManager.AddRoleInheritance | datafusion-postgres/src/auth.rs:290-311 | the parent becomes inherited, once; nothing checks for a cycle |
| Auth.AuthManager.RemoveRoleInheritance | datafusion-postgres/src/auth.rs:314-333 | the parent is no longer inherited |
| Auth.AuthManager.RoleGrants | datafusion-postgres/src/auth.rs:238-285 | the loop over a role's grants answers whether the role is a superuser or has a grant that covers the request |
| Auth.AuthManager.CheckRolePermission | datafusion-postgres/src/auth.rs:232-266 | from any role where the recursion returns it answers whether a superuser role or a matching grant is reachable |
| Auth.AuthManager.CheckInherited | datafusion-postgres/src/auth.rs:254-262 | the loop over inherited roles stops at the first that answers yes |
| Auth.AuthManager.CheckPermission | datafusion-postgres/src/auth.rs:186-229 | the check with its first level written out makes the decision of the plain recursion: a superuser, or one of the user's roles reaches a match |
| Roles.SearchSound | datafusion-postgres/src/auth.rs:232-266 | on any graph, cyclic or with dangling names, an answer of the search is reachability |
| Roles.SearchReturns | datafusion-postgres/src/auth.rs:232-266 | where no cycle is reachable the search answers within one call more than there are roles |
| Roles.NoFuelEnough | datafusion-postgres/src/auth.rs:232-266 | a search that can reach a cycle and no match is bounded by no number of calls |
| Roles.AnswersNoExactly | datafusion-postgres/src/auth.rs:232-266 | the search answers no if and only if nothing matching and no cycle is reachable |
| Roles.AnswersYesExactly | datafusion-postgres/src/auth.rs:232-266 | it answers yes if and only if there is a way to a first matching role on which every role listed before the next one reaches neither a match nor a cycle |
| Roles.DivergesExactly | datafusion-postgres/src/auth.rs:232-266 | it goes on for ever if and only if a cycle is reachable and there is no such way |
| Roles.DecisionExactly | datafusion-postgres/src/auth.rs:186-229 | the same for the decision about a user: when it is yes, when it is no, and when it is never made, on every graph |
| Roles.AuthorizedWithoutAnswer | datafusion-postgres/src/auth.rs:253-262 | the input: a role that inherits itself before a superuser; its users may do everything and the search never answers |
| Roles.MoreFuel | datafusion-postgres/src/auth.rs:232-266 | an answer does not depend on how much call depth is allowed |
| Roles.OneGrantExactly | datafusion-postgres/src/auth.rs:269-288 | a user whose one role has one grant is allowed exactly what it covers: All every permission and any other only itself; on everything, on a schema and the tables named after it and a dot, or on the one resource |
| RoleChanges.DecideExactly | datafusion-postgres/src/auth.rs:186-229 | on every acyclic graph the decision is made and is exactly what is authorized |
| RoleChanges.MutationsAreMonotone | datafusion-postgres/src/auth.rs:131-333 | granting and adding an edge only add, revoking and removing an edge only remove |
| RoleChanges.GrowsDecides | datafusion-postgres/src/auth.rs:131-333 | so on every graph, cyclic ones included, and at any call depths, a grant or new edge never turns a yes into a no; and a no given after it was given before it as well |
| RoleChanges.GrantExactly | datafusion-postgres/src/auth.rs:131-159 | a grant adds exactly the requests it covers, for exactly the roles that reach the grantee |
| RoleChanges.InheritanceExactly | datafusion-postgres/src/auth.rs:290-311 | a new edge adds exactly what the parent reaches, for exactly the roles that reach the child |
| RoleChanges.AcyclicExactly | datafusion-postgres/src/auth.rs:290-311 | a new edge keeps the graph acyclic if and only if the parent did not reach the child |
| RoleChanges.AcyclicStays | datafusion-postgres/src/auth.rs:314-333 | removing edges keeps it acyclic |
| CompositeBinary.StructEncoder.constructor | arrow-pg/src/struct_encoder.rs:163-169 | an encoder starts with an empty buffer |
| CompositeBinary.StructEncoder.EncodeField | arrow-pg/src/struct_encoder.rs:207-229 | one field appends its OID, its length and its bytes; the patched length is the number of bytes after it, and no earlier byte changes |
| CompositeBinary.EncodeStruct | arrow-pg/src/struct_encoder.rs:134-156 | the loop over the columns yields the binary record of all fields |
| CompositeBinary.RoundTripExactly | arrow-pg/src/struct_encoder.rs:116-230 | decoding gives back the count and every (oid, null or bytes) if and only if there are 1 to 2^31 - 1 fields and each value is shorter than 2^31 bytes |
| CompositeBinary.FieldWire | arrow-pg/src/struct_encoder.rs:207-229 | on the wire a field is its OID and its length, most significant byte first, and its bytes; NULL is a length of four bytes 255 and no bytes |
| CompositeBinary.RecordWire | arrow-pg/src/struct_encoder.rs:211-214 | a record is the number of its fields, then the fields in order |
| CompositeBinary.ReadFieldBack | arrow-pg/src/struct_encoder.rs:213-227 | one field reads back and leaves the rest unread |
| CompositeBinary.ReadFieldCut | arrow-pg/src/struct_encoder.rs:220-224 | a value of 2^31 bytes or more never reads back, because its length was cut to 32 bits |
| CompositeBinary.EncodeTree | arrow-pg/src/struct_encoder.rs:116-156 | composites inside composites are encoded inside out |
| CompositeBinary.NestedRoundTripExactly | arrow-pg/src/struct_encoder.rs:116-230 | values nested to any depth decode to themselves, given their types, if and only if they are of the type, every composite in them has a column, and every count and column length fits |
| WidthBucket.EqualWidthForm | datafusion-pg-functions/src/numeric/width_bucket.rs:113-162 | row by row with both errors: a bad count first, bad bounds only at the first row that has an operand; bounds and count are those of the first row of their columns |
| WidthBucket.OwnBoundsExactly | datafusion-pg-functions/src/numeric/width_bucket.rs:140-147 | a row gets the bucket of its own bounds and count, whatever its operand, if and only if they are those of the first row |
| WidthBucket.ThresholdsForm | datafusion-pg-functions/src/numeric/width_bucket.rs:184-240 | an error unless the batch has exactly one row and its list is not NULL; else that row counts the thresholds its operand has reached, NULL elements read as NaN |
| WidthBucket.NullsCountNothing | datafusion-pg-functions/src/numeric/width_bucket.rs:204-240 | elements that are NULL never count |
| WidthBucket.EqualWidthIsThresholds | datafusion-pg-functions/src/numeric/width_bucket.rs:164-212 | the equal-width bucket with count n is the thresholds bucket over the n + 1 cut points, for every operand, NaN included |
| WidthBucket.BucketIsInterval | datafusion-pg-functions/src/numeric/width_bucket.rs:164-180 | bucket b is exactly the b-th half-open interval, 0 and n + 1 what lies outside |
| WidthBucket.BucketMonotone | datafusion-pg-functions/src/numeric/width_bucket.rs:164-180 | buckets lie in 0..n+1 and rise with the operand |
| WidthBucket.ClampIdle | datafusion-pg-functions/src/numeric/width_bucket.rs:176-179 | inside the bounds the clamp never acts |
| WidthBucket.AsI32Exactly | datafusion-pg-functions/src/numeric/width_bucket.rs:158-159 | a bucket comes out as it is if and only if it fits an i32; otherwise its low 32 bits do |
| DecimalText.EncodeDecimal | arrow-pg/src/list_encoder.rs:427-460 | for a positive scale the text has exactly scale characters after its point, and without the point is the digits padded to one more; it is a numeral for v / 10^scale and no other number if v is not negative or has more digits than the scale, and for no number at all otherwise; for a negative scale, where v * 10^-scale is meant, it is the right numeral if and only if v is 0 |
| DecimalText.PrintLength | arrow-pg/src/list_encoder.rs:441-455 | a number has more than n digits exactly when it is at least 10^n |
| Intervals.RoundTripExactly | arrow-pg/src/encoder.rs:413-440 | an Arrow interval sent and coerced back to its unit returns, nanoseconds cut toward zero by less than 1000 to whole microseconds, so unchanged if and only if they were whole; nothing overflows |
| Intervals.AcceptedExactly | arrow-pg/src/datatypes/df.rs:235-273 | a parameter that is accepted is sent back unchanged if and only if its time part fits the Arrow field |
| Parameters.OrderedParamTypes | datafusion-postgres/src/handlers.rs:473-483 | for keys $1..$n position i holds the type of $(i+1), whatever order the map is iterated in |
| Parameters.SortedPositions | datafusion-postgres/src/handlers.rs:477-482 | sorting any enumeration of such a map by number puts each entry at its place |
| Parameters.Collector.constructor | datafusion-postgres/src/planner.rs:9-11 | a traversal starts with nothing collected |
| Parameters.Collector.Apply | datafusion-postgres/src/planner.rs:13-32 | at every point of the traversal the map tells exactly the placeholders met, each with the last cast directly over it |
| Parameters.ExtractPlaceholderCastTypes | datafusion-postgres/src/planner.rs:9-36 | every placeholder of the plan, with the type of its last direct cast |
| Parameters.Merge | datafusion-postgres/src/planner.rs:52-63 | every id of either map, a known type never replaced, an unknown one taken from the casts |
| Parameters.GetInferredParameterTypes | datafusion-postgres/src/planner.rs:38-66 | known types never change; if one is unknown, every placeholder of the plan appears and the unknown ones get their last cast |
| SimpleQuery.DfSessionService.NewWithHooks | datafusion-postgres/src/handlers.rs:136-149 | a session starts idle with the given hooks |
| SimpleQuery.DfSessionService.CallHooks | datafusion-postgres/src/handlers.rs:183-191 | the hooks are asked in order until one claims the statement |
| SimpleQuery.DfSessionService.DoQuery | datafusion-postgres/src/handlers.rs:153-234 | the loop pushes one response per statement and returns the first error |
| SimpleQuery.DfSessionService.Serve | datafusion-postgres/src/handlers.rs:153-234 | one batch, then the status moves |
| QueryRuns.FirstClaimWins | datafusion-postgres/src/handlers.rs:183-191 | hooks added at the end are consulted only for what the earlier ones decline |
| QueryRuns.ReplyExactly | datafusion-postgres/src/hooks/transactions.rs:25-131 | under the default hooks, the reply to every statement in each of the three states, tags, errors and the world it leaves included: cursor statements are their handler's, SET and SHOW too where it claims them, a failed transaction refuses the rest but COMMIT and ROLLBACK, and the engine answers everything else |
| QueryRuns.ReachesEngineExactly | datafusion-postgres/src/hooks/transactions.rs:25-59 | a statement reaches the engine if and only if the transaction has not failed and it is an INSERT, another statement, or a SET or SHOW that its handler declines |
| QueryRuns.SucceedsExactly | datafusion-postgres/src/handlers.rs:181-232 | a batch succeeds with given responses if and only if they are, one by one and in order, the replies to its statements |
| QueryRuns.Trace | datafusion-postgres/src/handlers.rs:181-232 | a batch that fails has answered a prefix, and the error is the reply to the very next statement: nothing later ran |
| QueryRuns.BatchMoves | datafusion-postgres/src/hooks/transactions.rs:96-131 | the status after a batch, from its statements and its success: a transaction opens only from idle when a BEGIN follows every COMMIT and ROLLBACK, and closes on any COMMIT or ROLLBACK |
| QueryRuns.OnlyEndsLeave | datafusion-postgres/src/hooks/transactions.rs:96-131 | whatever the hooks, a failed status is left within a batch only by a response that ends the transaction, and no response makes one |
| QueryRuns.FailedExactly | datafusion-postgres/src/hooks/transactions.rs:40-53 | at the end of any run the transaction is failed if and only if some batch failed inside a transaction and no later one succeeded with a COMMIT or ROLLBACK |
| QueryRuns.OpenExactly | datafusion-postgres/src/hooks/transactions.rs:96-131 | it is open if and only if some batch opened it from idle and every later one succeeded without COMMIT or ROLLBACK |
| QueryRuns.FailedBatchIgnoresEngine | datafusion-postgres/src/hooks/transactions.rs:40-53 | a batch that starts failed gives the same answer and the same state for every engine: no statement reaches it |
| QueryRuns.FailedRunIgnoresEngine | datafusion-postgres/src/hooks/transactions.rs:40-53 | so does every run for as long as the transaction stays failed |
| QueryRuns.LeavesErrorExactly | datafusion-postgres/src/hooks/transactions.rs:122-128 | a failed transaction is left exactly by a batch that succeeds and holds a COMMIT or ROLLBACK, both answering ROLLBACK; such a batch holds nothing but those, cursor statements and SET/SHOW, so "ROLLBACK; SELECT 1" leaves it failed |

## Left out

- The engine, sqlparser and DataFusion planning: statements and plans are small trees, the engine a parameter.
- AST nodes overwritten in place: the passes are functions on trees, so sharing and the boxes of sqlparser are not modelled; a tree has no sharing to lose.
- The other rewrite rules (duplicated aliases, unqualified identifiers, pg_catalog prefixes, callable qualifiers, array literals, current_user, version): they change meaning by design, need a schema, or are one-node maps.
- The entries of the blacklist: the scanner is proved for every table of patterns and replacements.
- ORDER BY, GROUP BY, outer joins and WITH in the evaluator: no modelled rule looks at them, and they would be further kinds passed through.
- SqlRegCast.RegCastPreserves: every row of the catalog has an integer oid and its name, a relation its namespace; `array_length`, IN, subscripts and AND/OR are PostgreSQL's, `parse_ident` and `current_schema` any functions; what a cast of a malformed name does is left to the engine, and of several rows of one name the first is meant.
- Names of columns computed by an expression: in a derived table only an alias or the name of a column shown is bound.
- SqlRegCast.EvalLookup: a name missing from the catalog is NULL, where PostgreSQL raises an error.
- SqlPreservation.RewritePreserves: asks that the last pass replaces no subquery by NULL; replacing one changes the meaning, by design. Its condition on the items is put on the tree after four passes, because the cast pass makes some of them.
- OidRuns.StableExactly: objects are identified by name, so a dropped and recreated table is the same object; the names a provider lists are assumed distinct.
- OidRuns.OidsAreNotShared: up to the point where the u32 counter wraps; TicketsCollide says what wrapping does.
- Columns of the catalog tables other than names and OIDs, static tables, and record batches.
- Concurrent use of the authorization manager: each check here sees one state of the maps, the source takes its locks anew for every role it reads.
- Users' passwords, login flags, connection limits, authentication sources and the predefined roles: plain data.
- The text form of composites: it rests on pgwire's quoting expressions, which are not part of this model.
- WidthBucket.EqualWidthIsThresholds: exact reals with NaN instead of floats, so rounding and infinities are not modelled; nor is the overflow of `count + 1` at the largest i64.
- Arguments of `width_bucket` of the wrong type: the planner rejects them by the signature.
- Durations and the other arms of `encode_value` and of `coerce_interval_value`: enumerative.
- Intervals.AcceptedExactly: multiplication of i64 wraps, as in release builds; a debug build panics instead.
- Parameters.OrderedParamTypes: says nothing about maps whose keys are not `$1`..`$n`; the library's stable sort is written as an insertion sort.
- QuoteIdent.ReservedQuoted: the 99 reserved words are data; four of them are stated.
- QueryRuns.BatchMoves: the wire layer is assumed to move the status between batches only: TransactionStart opens, TransactionEnd makes idle, an error fails an open transaction; pgwire itself is not part of this model.
- The extended query protocol, portals and the bodies of the cursor and SET/SHOW hooks: the hooks are parameters.
- Timeouts: a timed-out statement is one of the engine's errors.
