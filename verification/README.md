# Verified model of elan

Elan is a federated SQL gateway: coordinators register datasets with elan-central, elan-query plans
and runs SQL over remote executors, and policies decide who may read what. This project models the
parts of it that decide *what a query returns and to whom*, and proves what they guarantee for every
input, every run and every interleaving. `dafny verify dfyconfig.toml` checks all of it.

| File | Models |
|---|---|
| `Foundations.dfy` | options and results, filtering, and what a stable sort promises (with the proof that the promise fixes the result) |
| `Iam.dfy` | subjects, policies, resource patterns and the policy engine |
| `PlanRewrite.dfy` | the physical optimizer rule that empties denied scans |
| `Endpoint.dfy` | decimal numerals and executor endpoints |
| `Sql.dfy`, `SqlRoundTrip.dfy` | the filter printer, a reader for the printed SQL, and what reading back yields |
| `Pushdown.dfy` | whole statements, three-valued evaluation, what an executor answers, re-filtering and limits |
| `CapturedNot.dfy` | filters whose text is misread: which of them re-filtering repairs, and on which rows |
| `QueryPath.dfy` | a query end to end over a fleet of executors: plan rewrite, scans as SQL text, re-filtering and limits together |
| `Catalog.dfy`, `CatalogReads.dfy`, `CatalogRuns.dfy` | the catalog tables, their reads, all their runs, and startup registration |
| `SessionCache.dfy` | elan-query's catalog cache, its refresh, table lookup, and how lookup and plan rewrite fit together |
| `PolicyStore.dfy` | the policy tables, the wire format, the policy service and its interleavings, and the list elan-query starts with |
| `Audit.dfy` | the audit log, replay, and live streaming |

## What is assumed

- Tables obey their declared constraints, foreign keys included; each SQL statement is atomic. When
  an insert would violate both the `(namespace, name)` and the id constraint, the conflict clause on
  `(namespace, name)` applies. Text is compared code point by code point.
- Generated identifiers are arguments; nothing assumes they are fresh, a clash is a modelled error.
  Identifiers and JSON values are held in canonical text form; the libraries that read them are
  parameters that read a canonical form as itself.
- Query operators, their schemas and their row semantics are parameters; the planner puts a filter
  operator above a scan whose filters it pushed down, as the Inexact answer asks, and hands a scan a
  limit only under the slice the limit comes from, when every filter of the scan translates and is
  read exactly (`QueryPath.Planned`). Operators that hand on their one input may stand in between. A
  scan that fails fails its query.
- An executor serves each table under its bare name, one table a name.
- The executor reads SQL by the precedence of search conditions in section 8.12 of ISO/IEC 9075:1992
  (OR below AND below NOT below comparison), a comparison operand being a primary.
- The broadcast buffer holds 256 events; a receiver that falls further behind is told how many it
  missed and continues at the oldest event still held.

## Where the code and its documentation differ

The model follows the code.

- Row filters and column masks are computed but never applied: the plan depends on the allow or deny
  outcome alone (`RestrictionsAreIgnored`), where the documentation has a filter node inserted.
- Access is decided for `namespace.name`, but a scan names its table by the bare name alone, and so
  do executors. If two namespaces share a name at one endpoint, which the catalog allows
  (`CatalogAllowsSharedNames`), a scan of one returns the rows mounted for the other, denied or not
  (`SharedNameReturnsOtherDataset`). With the executors there are, all planned queries over some
  datasets run as meant exactly when each dataset the user may read is served under its bare name at
  its endpoint (`EndToEndIff`); nothing in the code enforces this. Some executors can do so exactly
  when no two datasets with different rows share a bare name at one address (`ServableIff`).
- A dataset's endpoint is copied by a lookup before it is written, and does not follow its
  coordinator afterwards (`EndpointDoesNotFollow`). At every instant of every run it is current
  exactly when the coordinator's last registration since that lookup, if any, repeated it
  (`EndpointCurrentIff`); if the upsert races the coordinator's first registration, the copy is empty
  (`RacingUpsertLosesEndpoint`).
- A dataset id survives re-registration (`IdentityIsPermanent`), where a comment has a fresh id each time.
- The policy engine is not always consistent with the database: it is current exactly when the policy
  rows are those its list was taken from (`CurrentIffSameRows`). From every consistent store, two
  overlapping calls for known subjects and with unused ids can leave it without a stored policy
  (`OverlapCanStrandAPolicy`); calls that do not overlap cannot (`SerialRunsAreExact`), unless a
  listing fails, which is reported as an error of a call whose write has happened (`Create`, `Delete`).
- elan-query loads its policies once, at startup, although the engine's comment speaks of periodic
  reloads and the configuration has a refresh interval. What it enforces is current exactly as long as
  the policy rows are those of that moment (`StartupListCurrentIff`); a Deny created later is enforced
  by elan-central and not by a running elan-query (`LaterDenyIsNotEnforced`).
- Audit catch-up and live streaming do not join up: an event stored after the catch-up query and
  broadcast before the subscription never arrives (`GapLosesEvent`), and one in both arrives twice
  (`OverlapDuplicatesEvent`). A catch-up of more than 64 events blocks before the stream is handed
  out (`LongReplayNeverGoesLive`, `LongReplayGetsStuck`).
- Re-filtering does not always repair pushdown, because `NOT` is printed without parentheses of its
  own. The exact condition, for every list of printable filters and every table, is that the text is
  readable and that no row of the table satisfies the filters but not the condition read back
  (`RefilterExact`). It always holds if no comparison has a `NOT` as a direct operand, since the text
  then reads back as the filter (`PrintReadRoundTrip`, `PushdownSound`). Otherwise:
  - as the right operand a `NOT` makes the whole statement unreadable under the assumed grammar, and
    the scan fails (`ReadableIff`, `NotOnTheRightIsRejected`);
  - as the left operand of `=` or `!=` over boolean values it captures the comparison without changing
    its value, at any depth (`EqualityFiltersExact`);
  - as the left operand of an ordering it can change the value. Outside of comparison operands,
    re-filtering repairs that for `<` and `>` below an even number of `NOT`s and for `<=` and `>=`
    below an odd number (`PolarisedFiltersRepairable`); `(NOT x) <= y`, `(NOT x) >= y` and the
    negations of `(NOT x) < y` and `(NOT x) > y` can lose rows (`NotComparedExact`, `NegatedExact`). As
    an operand of another comparison each of the four orderings can (`NestedExact`,
    `NestedOrderingLosesARow`).
- One malformed row hides the whole catalog listing, not just itself (`ListSucceedsIff`), and
  registration lets such a row in (`BadRegistrationHidesListing`).

## Model

| member | source | states |
|---|---|---|
| Sorting.StableSortCorrect | crates/elan-iam/src/engine.rs:58-67 | the sort yields an ordered permutation that keeps the list order of ties |
| Sorting.StableSortUnique | crates/elan-iam/src/engine.rs:58-67 | order and tie groups determine the result, so the sorting algorithm does not matter |
| Sorting.StableHead | crates/elan-iam/src/engine.rs:58-69 | the head of a stable sort is the first listed element that nothing precedes |
| ResourcePatterns.ExactPatternResources | crates/elan-iam/src/types.rs:97-108 | an exact pattern matches exactly the resources got by cutting it at a dot, as many as it has dots |
| ResourcePatterns.NamespacePatternResources | crates/elan-iam/src/types.rs:102-105 | `ns.*` matches exactly the resources of that namespace |
| ResourcePatterns.QualifiedInjective | crates/elan-iam/src/types.rs:21-25 | joined names are injective for dot-free namespaces |
| ResourcePatterns.DotFreePattern | crates/elan-iam/src/types.rs:97-108 | over dot-free namespaces `ns.name` reaches no other namespace, and matches exactly its own resource iff it does not end in `.*` |
| IamEngine.SnapshotIamEngine.Check | crates/elan-iam/src/engine.rs:44-120 | the filter loop, in-place sort and head compute the decision function on the engine's snapshot |
| IamEngine.SnapshotIamEngine.Reload | crates/elan-iam/src/engine.rs:122-125 | the snapshot is replaced as a whole |
| IamEngine.DecideFollowsTheRule | crates/elan-iam/src/engine.rs:44-120 | on every list: default deny without a match, else the one governing policy decides (Deny overrides, then highest priority, then list order) |
| IamEngine.AllowedIff | crates/elan-iam/src/engine.rs:47-119 | access is granted iff some Allow matches and no Deny does |
| IamEngine.SinglePolicyReaches | crates/elan-iam/src/types.rs:96-122 | whom, what and which action one policy reaches, spelled out: a lone policy grants a request iff it is an Allow for this user, for `*` or for one of the user's groups, on `*`, on `ns.*` or on this qualified name, for `*` or this action up to ASCII case |
| IamEngine.AllowCarries | crates/elan-iam/src/engine.rs:84-108 | on every list the governing Allow's row filter is returned, and of a readable mask document exactly the columns that ask for REDACT or SHA256, each with that mask; of an unreadable or absent one none |
| IamEngine.DenySays | crates/elan-iam/src/engine.rs:76-118 | a governing Deny is named with the resource; without any match the user and the resource are |
| IamEngine.VisibleIff | crates/elan-iam/src/catalog_filter.rs:11-22 | a dataset is shown iff some Allow and no Deny matches reading it with SELECT |
| IamEngine.DescendingListRule | crates/elan-central/src/db/iam_store.rs:113-122 | on a priority-descending list the first matching Deny, or without one the first match, governs |
| IamEngine.OutcomeIgnoresOrder | crates/elan-iam/src/engine.rs:44-120 | the outcome is the same for any list with the same matching policies, in any order |
| IamEngine.InsertIrrelevant | crates/elan-iam/src/engine.rs:48-55 | inserting a policy that does not match changes no part of the decision |
| IamEngine.InsertMonotone | crates/elan-iam/src/engine.rs:57-67 | adding a Deny never opens access, adding an Allow never closes it |
| IamEngine.UniqueTopIsOrderFree | crates/elan-iam/src/engine.rs:57-108 | if one Allow outranks all other matches, its row filter and its mask are returned whatever the list order, and the decision is the one of that policy alone |
| PlanRewrite.RewritePreservesMeaning | crates/elan-iam/src/optimizer.rs:88-131 | for every plan, operator semantics and database, the rewritten plan returns what the original returns with denied datasets emptied, and reads exactly the allowed datasets in order |
| PlanRewrite.RewriteKeepsShape | crates/elan-iam/src/optimizer.rs:109-131 | on a well-built plan the rewrite succeeds, is well-built, keeps every schema, and differs only in denied scans |
| PlanRewrite.IdentityIffAllReadable | crates/elan-iam/src/optimizer.rs:95-121 | the rewrite is the identity iff every scanned dataset is allowed |
| PlanRewrite.RestrictionsAreIgnored | crates/elan-iam/src/optimizer.rs:111-118 | row filters and masks have no effect on the rewritten plan |
| PlanRewrite.RewriteIdempotent | crates/elan-iam/src/optimizer.rs:88-131 | rewriting twice equals rewriting once |
| Decimal.NumeralRoundTrip | crates/elan-query/src/planner/remote_scan.rs:97-99 | printed decimals are non-empty digit texts with the original value |
| Decimal.NumeralDigits | crates/elan-query/src/planner/remote_scan.rs:97-99 | printed decimals have the most significant digit first |
| Endpoint.ParseEndpointExact | crates/elan-query/src/planner/remote_scan.rs:216-227 | parsing gives (host, port) iff the text is the host, a colon and a colon-free reading of the port |
| Endpoint.ReadU16Iff | crates/elan-query/src/planner/remote_scan.rs:216-227 | a port text is the digits of a number up to 65535, with or without a plus sign |
| Endpoint.EndpointRoundTrip | crates/elan-query/src/planner/remote_scan.rs:158-161 | every `host:port` with a 16-bit port is read back, and the executor's SQL port is reached iff the port leaves room for the offset |
| SqlPrinter.BuildSql | crates/elan-query/src/planner/remote_scan.rs:77-102 | the statement grown clause by clause is the specified scan text |
| SqlPrinter.PrintedOperator | crates/elan-query/src/planner/remote_scan.rs:230-259 | the text of every operator and of NOT around the texts of its operands |
| SqlPrinter.PrintedAtoms | crates/elan-query/src/planner/remote_scan.rs:230-259 | the text of columns and literals |
| SqlPrinter.PrintedStatement | crates/elan-query/src/planner/remote_scan.rs:77-102 | the text of whole statements: untranslated filters leave no trace, the others are joined in order, the limit comes last |
| SqlRoundTrip.TranslatedWholly | crates/elan-query/src/planner/remote_scan.rs:230-259 | a filter translates iff every node in it is supported |
| SqlRoundTrip.ReadConditionExact | crates/elan-query/src/planner/remote_scan.rs:230-259 | for every printable filter, exactly which tree (or syntax error) its text is read as |
| SqlRoundTrip.PrintReadRoundTrip | crates/elan-query/src/planner/remote_scan.rs:230-259 | the text reads back as the filter, up to column qualifiers, iff no comparison has a NOT as a direct operand |
| SqlRoundTrip.PrintInjective | crates/elan-query/src/planner/remote_scan.rs:230-259 | printable filters that differ beyond column qualifiers print differently, also those whose text is misread |
| StatementRoundTrip.StatementReadsBack | crates/elan-query/src/planner/remote_scan.rs:77-102 | the whole statement reads back as the table, the conjunction of the translated filters in order, and the limit |
| Pushdown.ExecutorAnswer | crates/elan-query/src/planner/remote_scan.rs:77-102 | for every list of printable filters: the executor answers iff the statement is readable and its table is mounted, and then with that table's rows on which the condition read is true, in order, up to the limit |
| Pushdown.ThreeValued | crates/elan-query/src/catalog/table.rs:73-83 | the connectives are three-valued: when they are true and when false, with null otherwise, and NOT exchanges AND and OR |
| Pushdown.ReadableIff | crates/elan-query/src/planner/remote_scan.rs:230-259 | the statement is readable iff no translated filter has, at any depth, a comparison with a NOT on its right |
| Pushdown.NotOnTheRightIsRejected | crates/elan-query/src/planner/remote_scan.rs:253-256 | one such filter makes the executor reject the statement, whatever else it holds |
| Pushdown.RefilterExact | crates/elan-query/src/catalog/table.rs:73-83 | for all printable filters and every table, re-filtering repairs pushdown iff the statement is readable and no row of the table satisfies the filters but not the condition read |
| Pushdown.RefilterExactOnAllTables | crates/elan-query/src/catalog/table.rs:73-83 | it does so on every table iff the statement is readable and the filters imply the condition read |
| Pushdown.RemoteRowsExact | crates/elan-query/src/planner/remote_scan.rs:77-102 | if every translated filter is read exactly of a table's rows, the executor returns exactly the rows of the table named in the statement on which every translated filter is true, in order, up to the limit |
| Pushdown.RepairableIff | crates/elan-query/src/catalog/table.rs:73-83 | re-filtering repairs pushdown on some rows iff of every row that satisfies all filters each single filter's text is read as true |
| Pushdown.PushdownSound | crates/elan-query/src/catalog/table.rs:73-83 | if no translated filter compares a NOT, re-applying all filters to the remote rows gives on every table exactly the rows that filtering the table gives |
| Pushdown.FaithfulIsExact | crates/elan-query/src/planner/remote_scan.rs:230-259 | filters that compare no NOT are read exactly, of all rows |
| Pushdown.ExactIsRepairable | crates/elan-query/src/catalog/table.rs:73-83 | re-filtering repairs the pushdown of filters that are read exactly |
| Pushdown.LimitSound | crates/elan-query/src/planner/remote_scan.rs:97-99 | if every filter translates and is read exactly of the table's rows, the first k rows are right whenever the pushed limit is at least k |
| Pushdown.LimitExact | crates/elan-query/src/planner/remote_scan.rs:84-99 | for all printable filters: the executed statement with a positive limit yields the right first rows on every table iff it is readable and either no row can qualify or the condition read is equivalent to the filters |
| CapturedNot.SafeFiltersRepairable | crates/elan-query/src/planner/remote_scan.rs:253-256 | re-filtering repairs filters at any depth whose captured comparisons only add truth below an even number of NOTs and only remove it below an odd number, row by row |
| CapturedNot.SameFiltersExact | crates/elan-query/src/planner/remote_scan.rs:253-256 | filters on whose captured comparisons no row's values differ are read exactly, so re-filtering and limits are right |
| CapturedNot.EqualityFiltersExact | crates/elan-query/src/planner/remote_scan.rs:253-256 | filters that capture only `=` and `!=` over boolean operands are read exactly, at any depth |
| CapturedNot.PolarisedFiltersRepairable | crates/elan-query/src/planner/remote_scan.rs:253-256 | re-filtering also repairs captured `<` and `>` below an even number of NOTs and `<=` and `>=` below an odd number, outside of comparison operands |
| CapturedNot.NotComparedExact | crates/elan-query/src/planner/remote_scan.rs:253-256 | for `(NOT x) op y` with arbitrary faithful boolean operands, re-filtering is right on a table iff op is not `<=` or `>=`, or no row's values are changed |
| CapturedNot.NegatedExact | crates/elan-query/src/planner/remote_scan.rs:253-256 | for `NOT ((NOT x) op y)` the same with `<` and `>` |
| CapturedNot.NestedExact | crates/elan-query/src/planner/remote_scan.rs:253-256 | for `((NOT x) op y) = z` it is right iff no row has its inner value changed away from that of z |
| CapturedNot.NestedOrderingLosesARow | crates/elan-query/src/planner/remote_scan.rs:253-256 | for each of the four orderings such a filter and a row that re-filtering loses |
| QueryPath.ScanRuns | crates/elan-query/src/planner/remote_scan.rs:77-102 | a scan of a served dataset whose filters are read exactly returns the rows on which every translated filter is true, up to its limit |
| QueryPath.PushdownInvisible | crates/elan-query/src/catalog/table.rs:52-83 | for every planned plan, all operators and every fleet serving its datasets by bare name, running scans as SQL text with filters and limits gives the results of reading whole tables, whatever operators that hand on their input stand above the scans |
| QueryPath.SliceHolds | crates/elan-query/src/catalog/table.rs:52-71 | a slice is the rows from the skip-th on, at most as many as asked for |
| QueryPath.QueryEndToEnd | crates/elan-query/src/session.rs:126-149 | a planned query whose readable datasets are served by bare name, rewritten for a user and run through the executors, returns what it would over whole tables with the denied datasets empty |
| QueryPath.BlankedStaysPlanned | crates/elan-iam/src/optimizer.rs:109-131 | emptying denied scans keeps a plan planned, and every scan left in it is of a readable, served dataset |
| QueryPath.WholeScanIff | crates/elan-query/src/planner/remote_scan.rs:77-102 | a whole-table scan returns its dataset's rows iff its endpoint serves them under the bare name |
| QueryPath.EndToEndIff | crates/elan-query/src/session.rs:126-149 | for a given fleet, user and set of datasets, all planned queries over them, rewritten and run, return what they mean iff every one of them the user may read is served by bare name at its endpoint |
| QueryPath.ServableIff | crates/elan-executor/src/context.rs:32-49 | some fleet serves a set of datasets by bare name iff every endpoint is an address and no two datasets with different rows share a bare name at one address |
| QueryPath.SharedNameReturnsOtherDataset | crates/elan-query/src/planner/remote_scan.rs:81-82 | if two namespaces share a bare name at one address, a planned and readable scan of one returns the rows served for the other, denied or not |
| QueryPath.CatalogAllowsSharedNames | migrations/0002_datasets.sql:1-14 | the catalog accepts one name in two namespaces under one coordinator, both with its endpoint |
| CatalogStore.Store.RegisterCoordinator | crates/elan-central/src/db/catalog_store.rs:25-54 | the coordinator's row has the given fields and is alive, whether or not it existed; nothing else changes |
| CatalogStore.Store.Heartbeat | crates/elan-central/src/db/catalog_store.rs:57-65 | a known coordinator is alive and otherwise as before; an unknown one is ignored; nothing else changes |
| CatalogStore.Store.RegisterDataset | crates/elan-central/src/db/catalog_store.rs:72-123 | performs the upsert, or reports the error and changes nothing |
| CatalogStore.Store.DeactivateDataset | crates/elan-central/src/db/catalog_store.rs:187-193 | row by row: rows with that id become inactive and are otherwise as before, all others and the coordinators are untouched |
| CatalogStore.Store.MarkDead | crates/elan-central/src/db/catalog_store.rs:196-202 | a known coordinator is dead and otherwise as before; an unknown one is ignored; nothing else changes |
| CatalogStore.UpsertEffect | crates/elan-central/src/db/catalog_store.rs:84-123 | one row reflects every field of the registration and the coordinator's endpoint, keeps its old id if it had one, and nothing else changes |
| CatalogStore.WriteRejectedIff | migrations/0002_datasets.sql:1-14 | an upsert is refused iff its coordinator is unknown or its pair is new and its id taken |
| CatalogStore.WriteKeepsConsistent | migrations/0002_datasets.sql:1-14 | an accepted write keeps ids and pairs unique, references valid, and every row's place and identity |
| CatalogReads.SortCommutesWithFilter | crates/elan-central/src/db/catalog_store.rs:157-177 | filtering an ordered result equals ordering a filtered one |
| CatalogReads.ListSucceedsIff | crates/elan-central/src/db/catalog_store.rs:183-183 | a listing succeeds iff every row it selects decodes |
| CatalogReads.BadRegistrationHidesListing | crates/elan-central/src/db/catalog_store.rs:72-123 | an accepted registration with an unknown source type makes the full listing fail, while every other dataset is fetched as before |
| CatalogReads.ListStrictlyIncreasing | crates/elan-central/src/db/catalog_store.rs:150-184 | a listing is strictly increasing by namespace and name |
| CatalogReads.ListOrder | crates/elan-central/src/db/catalog_store.rs:162-176 | of two listed datasets the earlier has the smaller namespace, or the same and the smaller name: a proper prefix, or the smaller character at the first difference |
| CatalogReads.ListHoldsLiveDatasets | crates/elan-central/src/db/catalog_store.rs:150-184 | a listing holds exactly the active datasets of live coordinators |
| CatalogReads.RowToDatasetIff | crates/elan-central/src/db/catalog_store.rs:207-225 | a row reads as a dataset iff every field comes from the column of that name, the id and metadata as the libraries read them, absent metadata as null |
| CatalogReads.ListedFields | crates/elan-central/src/db/catalog_store.rs:150-225 | a listing holds a dataset iff an active row of a live coordinator, in the asked namespace, has its fields, column by column |
| CatalogReads.FetchedFields | crates/elan-central/src/db/catalog_store.rs:126-147 | a fetch yields a dataset iff such a row has the key |
| CatalogReads.FetchedNothingIff | crates/elan-central/src/db/catalog_store.rs:126-147 | a fetch finds nothing iff no row under the key is active with a live coordinator |
| CatalogReads.RegisteredIsFetched | crates/elan-central/src/db/catalog_store.rs:72-147 | what an accepted registration of a live coordinator stored is fetched back with the registration's fields, the coordinator's endpoint and the id the row had before |
| CatalogReads.GetAgreesWithList | crates/elan-central/src/db/catalog_store.rs:126-147 | fetching a key yields a dataset iff the listing holds it under that key |
| CatalogReads.GetNoneIffUnlisted | crates/elan-central/src/db/catalog_store.rs:126-147 | fetching a key finds nothing iff no listed dataset has it |
| CatalogReads.NamespaceListIsFilter | crates/elan-central/src/db/catalog_store.rs:154-181 | the listing of a namespace is the filter of the full listing |
| CatalogReads.DeathHidesExactlyItsDatasets | crates/elan-central/src/db/catalog_store.rs:195-202 | marking a coordinator dead removes exactly its datasets from the listing, and a heartbeat restores the catalog |
| CatalogReads.UnregisteringHidesExactlyIt | crates/elan-central/src/db/catalog_store.rs:187-193 | unregistering takes exactly that dataset out of the listing, makes its key unknown, and leaves every other fetch as it was |
| CatalogReads.UnknownIdChangesNothing | crates/elan-central/src/db/catalog_store.rs:187-193 | unregistering an unknown id changes nothing |
| CatalogReads.WireRoundTrip | crates/elan-central/src/grpc/catalog_svc.rs:29-40 | a listed dataset survives encoding by central and decoding by elan-query |
| CatalogRuns.ReachableConsistent | migrations/0002_datasets.sql:1-14 | every reachable catalog has unique ids, unique pairs and valid coordinator references |
| CatalogRuns.IdentityIsPermanent | crates/elan-central/src/db/catalog_store.rs:99-107 | between any two instants of a run, rows keep place, id, namespace and name |
| CatalogRuns.AliveIff | crates/elan-central/src/db/catalog_store.rs:25-65 | at every instant of every run a coordinator is known iff it has registered, and alive unless it was marked dead and has been silent since |
| CatalogRuns.LiveIff | crates/elan-central/src/db/catalog_store.rs:126-202 | at every instant of every run a dataset is live iff it was not unregistered since it was last registered, and its coordinator was not marked dead since it was last heard from |
| CatalogRuns.PendingIff | crates/elan-central/src/db/catalog_store.rs:84-123 | an upsert holds the endpoint it looked up until its write, accepted or not |
| CatalogRuns.EndpointComesFromLatestUpsert | crates/elan-central/src/db/catalog_store.rs:84-123 | in every interleaving each row reflects its latest accepted upsert, with the endpoint that upsert looked up |
| CatalogRuns.EndpointCurrentIff | crates/elan-central/src/db/catalog_store.rs:84-123 | at every instant of every run, a row has its coordinator's current endpoint iff the coordinator's last registration since the row's lookup, if any, repeated it |
| CatalogRuns.UpsertCurrentIff | crates/elan-central/src/db/catalog_store.rs:84-123 | for an accepted upsert whose lookup came earlier, whatever other calls did in between: its row holds the endpoint looked up, at the write and until the next accepted upsert of the key, and is current by the same condition |
| CatalogRuns.EndpointDoesNotFollow | crates/elan-central/src/db/catalog_store.rs:25-54 | a run in which the coordinator registers again under another endpoint and the live row keeps the old one |
| CatalogRuns.RacingUpsertLosesEndpoint | crates/elan-central/src/db/catalog_store.rs:84-91 | an upsert racing its coordinator's registration is accepted and live with an empty endpoint |
| StartupRegistration.Register | crates/elan-coordinator/src/registration.rs:16-49 | registers the coordinator and then each dataset in order; the first entry that cannot be built or is refused ends the run with the earlier effects in place |
| StartupRegistration.RegistrationOutcome | crates/elan-coordinator/src/registration.rs:26-45 | after success each configured row reflects the last entry for its key under this coordinator and endpoint; all others are unchanged |
| StartupRegistration.ConfiguredKeysAreLive | crates/elan-coordinator/src/registration.rs:37-45 | every configured key has such a row, and it is live |
| StartupRegistration.RegisteredAsConfigured | crates/elan-coordinator/src/registration.rs:16-49 | after a whole successful registration, from any consistent catalog, the coordinator's row is as configured and alive, and no other coordinator and no row under another key has changed |
| StartupRegistration.RegisteredDataset | crates/elan-coordinator/src/registration.rs:16-49 | and every configured key has a live row under this coordinator and its endpoint, with the source type, schema and metadata of the last entry for the key, field by field |
| SessionCache.GroupingConserves | crates/elan-query/src/session.rs:216-233 | each listed dataset occurs under its own namespace as often as listed, and nowhere else |
| SessionCache.GroupingKeepsOrder | crates/elan-query/src/session.rs:216-233 | within its namespace each dataset keeps the order of the listing |
| SessionCache.DecodeStreamIff | crates/elan-query/src/session.rs:216-233 | a load succeeds iff every item arrives and decodes, and then yields the items in order |
| SessionCache.LoadDatasets | crates/elan-query/src/session.rs:206-236 | the loop groups the complete stream by namespace in order, and any failure discards the load |
| SessionCache.SessionFactory.Refresh | crates/elan-query/src/session.rs:86-98 | a successful load replaces the view, a failed one keeps it |
| SessionCache.ListingSurvivesWire | crates/elan-query/src/session.rs:218-231 | a listing that arrives complete is decoded to what central listed |
| CacheRuns.CacheIsOnePastListing | crates/elan-query/src/session.rs:78-100 | in every run the cache is the grouping of one whole past listing and never goes back to an older one |
| CacheRuns.RefreshTakesEffect | crates/elan-query/src/session.rs:78-100 | a fetch that got the whole of central's listing, once installed, is the cache, whatever central did in between; one that failed or was cut short changes nothing |
| CacheRuns.CentralRunsAlone | crates/elan-query/src/session.rs:78-100 | in every run central's state is that of its own statements alone |
| SchemaProvider.Provider.constructor | crates/elan-query/src/catalog/provider.rs:92-117 | the provider holds exactly the names in the list, each with the last entry of that name |
| SchemaProvider.Provider.Table | crates/elan-query/src/catalog/provider.rs:142-207 | case by case: hidden if denied, else the cached entry, else the reply of central, decoded field by field and then cached, or the error, which caches nothing |
| SchemaProvider.Provider.TableNames | crates/elan-query/src/catalog/provider.rs:126-140 | exactly the cached names that are visible to the user |
| SchemaProvider.LookupEqualsDirect | crates/elan-query/src/catalog/provider.rs:159-207 | while central is unchanged, a visible lookup gives central's answer and the cache stays a mirror of central |
| SchemaProvider.LookupWithoutAnswer | crates/elan-query/src/catalog/provider.rs:159-207 | when central fails on an uncached name the lookup fails, when it has no such dataset the name is unknown, and neither is cached |
| SchemaProvider.CachedSessionAgrees | crates/elan-query/src/session.rs:106-124 | in any run, if central is unchanged since the cached listing, a session on a cached namespace answers visible lookups as central does |
| SchemaProvider.PreloadedWellFiled | crates/elan-query/src/session.rs:112-121 | every preloaded entry is filed under its own namespace and name |
| SchemaProvider.LookupWellFiled | crates/elan-query/src/catalog/provider.rs:142-207 | entries stay filed under their own key, and the dataset handed out is the one whose visibility was checked |
| SchemaProvider.SameQuestion | crates/elan-iam/src/optimizer.rs:95-118 | whether the rewrite keeps a scan is whether the catalog shows its dataset |
| SchemaProvider.LayersAgree | crates/elan-query/src/session.rs:112-137 | under one policy snapshot the rewrite is the identity on every plan over resolved tables |
| PolicyStore.ListPoliciesIsListing | crates/elan-central/src/db/iam_store.rs:109-156 | listing returns exactly the stored policies with their subjects, in descending priority |
| PolicyStore.ListingsAgree | crates/elan-central/src/db/iam_store.rs:113-122 | the unpromised order among equal priorities does not affect who gets in |
| PolicyStore.CreatedPolicyIsListed | crates/elan-central/src/db/iam_store.rs:35-97 | a created policy is listed next to all others, as requested iff its subject name is new or has the requested type |
| PolicyStore.CreateAcceptedIff | crates/elan-central/src/db/iam_store.rs:35-97 | a policy is created iff its id is free and its subject is known, or new with one of the two types and a free id; a refused call leaves at most the new subject behind |
| PolicyStore.CreatedPolicyFields | crates/elan-central/src/db/iam_store.rs:66-97 | the listed policy has the request's fields, one by one, and the subject type that was stored first |
| PolicyStore.DeletePolicyKeeps | crates/elan-central/src/db/iam_store.rs:100-106 | exactly the policy with that id is gone, and the constraints hold |
| PolicyStore.WireRoundTripIff | crates/elan-central/src/grpc/iam_svc.rs:110-126 | a policy survives the wire iff it has no present but empty text |
| PolicyStore.LoadPolicies | crates/elan-query/src/session.rs:65-68 | a complete stream is decoded item by item and field by field, each unreadable id replaced by one of its own; a failure anywhere leaves the empty list |
| PolicyStore.ServicesAgree | crates/elan-query/src/session.rs:163-204 | what elan-query receives of a listing of a consistent store is the listing, so every decision equals central's |
| PolicyService.IamService.Create | crates/elan-central/src/grpc/iam_svc.rs:136-162 | with no other call running: it creates the policy and the engine holds a listing of the new store; if the store refuses or the listing fails it returns that error with the engine unchanged, in the latter case with the policy stored |
| PolicyService.IamService.Delete | crates/elan-central/src/grpc/iam_svc.rs:164-176 | with no other call running: the policy is deleted, and the engine holds a listing of the new store unless the listing fails, which is an error that leaves the engine unchanged |
| PolicyService.IamService.ReloadEngine | crates/elan-central/src/grpc/iam_svc.rs:204-214 | the engine holds a listing of the store, or the listing fails and it is unchanged |
| PolicyRuns.StoreStaysConsistent | crates/elan-central/src/db/iam_store.rs:66-106 | every reachable store keeps its constraints and holds no empty filter or mask text |
| PolicyRuns.StoredIff | crates/elan-central/src/db/iam_store.rs:66-106 | at every instant of every run a policy is stored iff it was there or inserted, and not deleted since |
| PolicyRuns.SubjectKnownIff | crates/elan-central/src/db/iam_store.rs:18-51 | at every instant of every run a subject name is known iff it was or has been added |
| PolicyRuns.InProgressIff | crates/elan-central/src/grpc/iam_svc.rs:136-176 | a call is in progress from its accepted write until its reload or its failed listing |
| PolicyRuns.EngineIsPastListing | crates/elan-central/src/grpc/iam_svc.rs:136-176 | however calls interleave, the engine holds a listing of the store at one past instant |
| PolicyRuns.ListingLastsIff | crates/elan-central/src/db/iam_store.rs:109-156 | a list taken at one instant of a run is a listing of the store at a later one iff the policy rows are the same |
| PolicyRuns.CurrentIffSameRows | crates/elan-central/src/grpc/iam_svc.rs:136-214 | at every instant of every run, the engine holds a listing of the current store iff the stored policy rows are those its list was taken from |
| PolicyRuns.CurrentUnlessChangedSince | crates/elan-central/src/grpc/iam_svc.rs:204-214 | so it is current if no event since its list was taken changed the policy table |
| PolicyRuns.CurrentIffNothingInserted | crates/elan-central/src/grpc/iam_svc.rs:136-162 | without deletions since its list was taken, it is current iff every insertion since was refused |
| PolicyRuns.SerialRunsAreExact | crates/elan-central/src/grpc/iam_svc.rs:136-176 | if policy-writing calls do not overlap and listings succeed, the engine is current whenever no call is in progress |
| PolicyRuns.OverlapCanStrandAPolicy | crates/elan-central/src/grpc/iam_svc.rs:136-176 | from every consistent store, for any two requests for known subjects and fresh ids, a run of two overlapping successful calls after which both policies are stored and the engine has the first but not the second |
| StartupPolicies.StartupListCurrentIff | crates/elan-query/src/session.rs:64-76 | what elan-query loaded at an instant of a run is a listing of the store at a later one iff the policy rows are the same, and then grants what central's listings grant |
| StartupPolicies.LaterDenyIsNotEnforced | crates/elan-query/src/session.rs:64-76 | from every store that grants a request, for every matching Deny: a run in which central denies the request once the Deny is created, and an elan-query that loaded before still grants it |
| AuditStore.ReplayOfRow | crates/elan-central/src/grpc/audit_svc.rs:62-73 | a replayed event is the published one without its time |
| AuditStore.WindowIsNewest | crates/elan-central/src/db/iam_store.rs:192-231 | the query returns rows at or after `since`, newest first, at most 100, and if it leaves one out then it returns 100 and none of them is older |
| AuditStore.ReplayHolds | crates/elan-central/src/db/iam_store.rs:213-231 | exactly the rows of an asked-for type are replayed, field by field and without their time |
| AuditStore.ReplayKeepsOrder | crates/elan-central/src/grpc/audit_svc.rs:62-77 | in the order of the window |
| AuditStore.AuditService.PublishEvent | crates/elan-central/src/grpc/audit_svc.rs:104-129 | a new id is stored and broadcast, a used one is refused and neither |
| AuditStore.EventStream.ReplayAll | crates/elan-central/src/grpc/audit_svc.rs:62-77 | the replay loop ends iff the events fit the channel, which then holds them in order |
| AuditStore.EventStream.ReceiveNext | crates/elan-central/src/grpc/audit_svc.rs:84-97 | one turn of the receive loop: more than 256 events behind it skips to the oldest one held and reports how many, otherwise it takes the next event and selects it iff its type is asked for |
| AuditRuns.ReachableInvariants | crates/elan-central/src/grpc/audit_svc.rs:42-129 | in every interleaving ids are unique, broadcasts were persisted first, and the stream is the replay followed by the wanted received events |
| AuditRuns.DeliveryCount | crates/elan-central/src/grpc/audit_svc.rs:42-129 | an event's delivery count is one if replayed plus one if received live; nothing unpersisted is delivered |
| AuditRuns.StreamOrder | crates/elan-central/src/grpc/audit_svc.rs:62-98 | the stream is the replay, then live events in broadcast order, every gap being a reported lag |
| AuditRuns.StreamIsWanted | crates/elan-central/src/grpc/audit_svc.rs:56-98 | in every run everything in the stream is of an asked-for type, and was broadcast or stored at or after `since` |
| AuditRuns.PhaseIff | crates/elan-central/src/grpc/audit_svc.rs:42-101 | the subscriber is replaying from its query, live from its subscription and stopped from its disconnection |
| AuditRuns.DeliveryCases | crates/elan-central/src/grpc/audit_svc.rs:56-80 | the exact count of a wanted event by its log position: once if replayed plus once if its position was received; replayed only if persisted before the query, received only from the subscription on |
| AuditRuns.GapLosesEvent | crates/elan-central/src/grpc/audit_svc.rs:56-80 | for every event and request, a run in which it is stored and broadcast, everything was received without lag, and the stream is empty |
| AuditRuns.OverlapDuplicatesEvent | crates/elan-central/src/grpc/audit_svc.rs:56-98 | for every event a request asks for, a run in which it arrives twice |
| AuditRuns.UnlaggedCount | crates/elan-central/src/grpc/audit_svc.rs:79-98 | without lag, the count of a wanted event the cursor has passed is one if replayed plus one if broadcast after the subscription |
| AuditRuns.ReplayIsTheWindow | crates/elan-central/src/grpc/audit_svc.rs:56-77 | in every run the replay is the wanted events of the newest-rows window over the rows stored at the query |
| AuditRuns.LongReplayNeverGoesLive | crates/elan-central/src/grpc/audit_svc.rs:47-80 | with more than 64 events to replay the stream never goes live, and once its channel is full the subscriber has no step left |
| AuditRuns.LongReplayGetsStuck | crates/elan-central/src/grpc/audit_svc.rs:47-80 | for every length from 65 to the replay limit, a run with that many events to replay that ends stuck in this way |
| AuditRuns.ShortReplayGoesLive | crates/elan-central/src/grpc/audit_svc.rs:62-101 | with at most 64 the subscriber can always proceed, and goes live with exactly the replay waiting |

## Left out

- Transport, TLS, configuration, health endpoints, the terminal UI, the Kafka sink, uploads and the Ballista scheduler: input and output only.
- String, date and floating-point literals in pushed filters: their display form belongs to a library; such a filter is outside `Printable`.
- Table and column names that contain a double quote: the printer does not escape it, the reader ends an identifier at the next one, and statements with such names are left out of what is read back.
- Projected scans: the scan returns all columns whatever schema it declares, so rows are stated unprojected.
- Arrow schema decoding: a schema is carried as bytes, and the fallback to an empty schema is not modelled.
- Timestamps of coordinators and datasets: written but never read by the operations modelled.
- `search_datasets`, `check_access` encoding, group membership and the allow-all engine: easy members.
- The heartbeat stream loop: each received heartbeat is one store update.
- A subscriber's task being cancelled before it goes live: the stream then delivers nothing.
- Two racing creations of the same subject: the second insert fails in the model as in the store, and its call ends.
- The order in which a plan's scans run, and scans that never run because another failed or a limit was reached: a query fails if any of its scans fails.
- Evaluation errors at an executor, such as a type mismatch: an ill-typed comparison has whatever value the interpretation gives it.
- The tie order of policies of equal priority: any order is allowed, so a row filter chosen among tied Allow policies is not fixed across services that list separately.
