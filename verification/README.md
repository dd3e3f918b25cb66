# A Dafny model of eager loading, traversal, bulk creation and the audit gate

The backend reaches its database through generated entity clients. The account entity shows the algorithms in that
code; the other entities repeat the same templates. This project models them once, generically, and proves what
they promise. The last part models the script that gates builds on known vulnerabilities.

**Eager loading** (`Graph`, `Listing`, `NestedJoin`, `EagerLoad`, `EagerLoadResults`). A query carries a tree of
`With*` requests. `sqlAll` answers it with one query per requested edge and stitches the rows onto the parent
nodes through maps. The database is a set of tables and link tables. `QueryNodes` and `QueryJoined` stand for the
engine: their contracts allow every order that ORDER BY allows, and callers see only the contracts. Nodes are heap
objects; loaders write the edge slots of the level above in place, and several parents share one child object.
`NestedJoin.Loaded` says what a node would carry if each edge of each node were queried separately. It is a
relation because rows of equal sort key come in any order; `Naive` is the recursion that computes one such result.
The main theorem is that the batched run meets the relation at every level of every query tree, and that no
"unexpected node" error is reachable. With sort keys that have no ties it returns exactly the naive result.

What the code does not meet is stated exactly:

- Among parents that share an ID, only the last gets the rows of a to-many edge (`Served`, in the contract of
  `LoadEdges`). Many-to-one edges serve all of them.
- A limit or an offset on a child query applies to the whole batch. Without paging every batch is fair to every
  parent (`UnpagedIsFair`); for every limit and offset that page at all there is a database on which no order of the
  batch is fair to all parents (`PagingIsUnfair`), whatever the kind of the edge. So the main theorem is about child
  queries without paging. The root query may be paged.
- Loaders narrow the child builder they are given in place. For an edge over a foreign key, a builder that is run
  twice finds a parent's rows the second time exactly when the parent's key was there the first time, or it has none
  (`ReusedChildExact`). For a many-to-many edge every run adds a join column in front, and the callback finds the
  child's ID where it looks for it in the first run only (`SecondValueIsChildId`).

**The query builder** (`QueryBuilder`). Builders are objects that own a context, a selector and the builders of
their requested edges. `Clone` yields a builder of the same value without modifiers that shares no owned object,
so no interleaving of later operations on one is visible in the other. What a script of operations makes of a
builder is stated on its own (`ScriptAppends`, `ScriptSets`, `ScriptRequests`). The documentation calls a clone a
duplicate that includes all associated steps; the code leaves the modifiers out, and `CloneIsExact` says that
a clone is exact if and only if no builder of the tree has any. The traversal path is copied as it stands and
still starts from the same parent builder.

**Chains of traversals** (`Traversal`). `QueryGroups` and its kind store a closure over the builder they start from.
Evaluating the last builder evaluates the chain through these closures and rewrites every intermediate selector in
place. `Source` says which tuples the joins may give when steps have predicates, orders, limits, offsets or ask for
distinct rows. Three facts follow, for chains of any length. Every row returned is in the relational image, whatever
was asked of the steps. A chain whose steps are not cut returns exactly the image, each row once, because
distinct rows are the default after a traversal. With distinct rows switched off it returns one row for each way
through the chain. A limit of zero means no limit on the last step and no rows on a step before it
(`ZeroLimitEndsChain`): `querySpec` treats zero as unset, `sqlQuery` does not.

**Edge updates** (`AccountEdges`, `EdgeUpdate`). The edge specifications of an update, replayed clears first, make of the neighbours
of any account what the mutation asks for. Of the two guards of a removal the one on an empty list is needed, the one
on a cleared edge is not (`RemovalGuardExact`).

**Accounts as rows** (`AccountRow`). Storing a created account and reading the row back through any list of columns
gives the node that creation returned exactly when every column that was set is read; a field that is not a pointer
may be left out when it was set to its zero value.

**Bulk creation** (`BulkCreate`, `BulkLoop`). The bulk `Save` is a chain of mutators, each wrapped in hooks, that is
proved to be a straight line: set all defaults, enter the builders in order, insert once, leave in reverse order.
`InsertedExact` says what the insert is given. `SaveExact` says for every bulk, the empty one included, and for all hooks what is inserted, which mutations are
marked done, and the error. A hook may forward, edit, fail before, answer by itself, or forward and answer with any
function of the error that came back. When no hook answers with a success of its own and none turns an error into
success, the mutations marked done are a suffix, and none at all without a successful insert. Without that
restriction a mutation may be done although nothing was inserted; `DoneWithoutInsertExact` says when.

**The audit gate** (`AuditParser`, `AuditGate`). A reader for the exception list with a print/read round trip, for
values written bare or in quotes of either kind, and an exact verdict from the strings of list and report. The gate compares severities only for the first vulnerability of a key, so its verdict can depend
on the order of the report: for every entry of high or critical severity that is not expired there is a report of two
vulnerabilities for which it does (`OrderMatters`). `OrderIndependentExact` says for which lists and reports it does
not.

## Model

| member | source | states |
|---|---|---|
| Graph.ProjectionKeepsKeys | backend/ent/account_query.go:716-727 | for any selected fields the ID column comes first and once, and the columns are exactly the ID, the selected fields and the foreign keys of requested many-to-one edges |
| Graph.ProjectExact | backend/ent/account_query.go:716-727 | an entity scanned with selected fields has its ID and exactly those of these columns that are not NULL |
| Graph.QuerySpecColumns | backend/ent/apikey_query.go:609-623 | the appends of `querySpec`, with two foreign keys, give that column list |
| EagerLoad.QueryNodes | backend/ent/account_query.go:506-508 | the rows that satisfy the predicates, each once, in some order that ORDER BY allows; behind the offset, as many as there are up to a limit that is not zero |
| Listing.PageExact | backend/ent/account_query.go:731-736 | the number and the positions of the rows of a page, for every limit and offset |
| EagerLoad.QueryJoined | backend/ent/account_query.go:553-561 | one row for each link from the given parents to a selected child, in some order that ORDER BY allows, cut by offset and limit |
| EagerLoad.ScanNodes | backend/ent/account_query.go:494-499 | one fresh node for each row, in order, with all edge slots nil |
| EagerLoad.AssignJoined | backend/ent/account_query.go:576-585 | the hooked callback makes a node of a child at its first join row and records every row's parent under the child's ID |
| EagerLoad.ScanJoined | backend/ent/account_query.go:565-587 | after all join rows: exactly the linked children, each once, sorted, and for each child exactly its linked parents |
| EagerLoad.IndexAndInit | backend/ent/account_query.go:543-552 | the map sends each ID to the last node that has it; every edge list is emptied |
| EagerLoad.StitchJoined | backend/ent/account_query.go:592-600 | each parent's list is its share of the children in their order, whatever order the set of parents is visited in; an error exactly for a child with no recorded parents |
| EagerLoad.StitchByKey | backend/ent/authidentity_query.go:579-589 | each child goes to the one parent its key names; an error exactly for a nil or unknown key |
| EagerLoad.IndexKeys | backend/ent/account_query.go:604-615 | the key list has each non-nil foreign key once, and the map all nodes that carry it |
| EagerLoad.StitchTargets | backend/ent/account_query.go:624-632 | every node that carries a returned child's ID gets that child, the others keep nil |
| EagerLoad.LoadM2M | backend/ent/account_query.go:542-602 | slot k holds the answer of each parent's own query exactly for served parents, no other slot changes, no error is reachable |
| EagerLoad.LoadM2O | backend/ent/apikey_query.go:526-557 | the same for a foreign key, nullable or not, and for parent lists with repeated IDs |
| EagerLoad.LoadO2M | backend/ent/account_query.go:635-664 | the same for the far side of a foreign key |
| EagerLoad.LoadEdges | backend/ent/account_query.go:512-539 | for any parent list a parent carries its nested join exactly when every request serves it; the heap below it represents that tree |
| EagerLoad.DistinctRowsServed | backend/ent/account_query.go:565-601 | with a primary key, distinct rows are served by every request, which every level relies on |
| EagerLoad.SqlAllJoined | backend/ent/account_query.go:565-587 | the child level of a many-to-many edge is loaded all the way down |
| EagerLoad.SqlAll | backend/ent/account_query.go:480-540 | for every well-formed query tree the nodes are the page of the root query, of the right length, and each carries its nested join, without error |
| NestedJoin.NaiveLoads | backend/ent/account_query.go:480-540 | the naive per-node recursion meets the relation |
| NestedJoin.LoadedIsNaive | backend/ent/account_query.go:480-540 | without ties in the sort keys it is the only result that does |
| EagerLoadResults.BatchedIsNaive | backend/ent/account_query.go:480-694 | without ties the batched run returns the naive result |
| EagerLoadResults.All | backend/ent/account_query.go:261-268 | the same for a whole run: rows, order, page and object graph |
| EagerLoadResults.OneOrErrExact | backend/ent/account.go:110-117 | after loading, "not loaded" exactly when not requested, "not found" exactly for a nil or dangling key, else the row the key names |
| EagerLoadResults.ManyOrErrExact | backend/ent/account.go:101-106 | after loading, "not loaded" exactly when not requested, else one node for each row of the edge, in order |
| EagerLoadResults.ReusedChildExact | backend/ent/account_query.go:616-651 | for both kinds of key-based edge, when a child builder narrowed by one run still finds a parent's rows in the next |
| EagerLoadResults.SecondValueIsChildId | backend/ent/account_query.go:553-585 | the second value of a many-to-many row is the child's ID, for any selected fields, in the first run of a builder and in no later one |
| EagerLoadResults.UnpagedIsFair | backend/ent/account_query.go:542-664 | for an edge of any kind, without a limit and an offset every batch gives each parent what its own query would |
| EagerLoadResults.PagingIsUnfair | backend/ent/account_query.go:731-736 | for an edge of any kind and every limit and offset that page at all, a database on which no run of the batch is fair to all parents |
| Traversal.ChainQuery.PrepareQuery | backend/ent/account_query.go:454-478 | evaluates the steps before this one, through any number of closures, and keeps the selector they give |
| Traversal.ChainQuery.Path | backend/ent/account_query.go:75-90 | the closure gives the join of the far side with what the near builder selects at that moment |
| Traversal.ChainQuery.SqlQuery | backend/ent/account_query.go:751-785 | puts distinct, predicates, order, offset and limit on the intermediate selector in place |
| Traversal.ChainQuery.All | backend/ent/account_query.go:261-268 | a possible outcome of the chain as the builders stand, cut down to the selected fields, without duplicate rows unless distinct rows were switched off; only intermediate selectors change |
| Traversal.ChainQuery.IDs | backend/ent/account_query.go:280-289 | the IDs the chain selects; distinct rows after a traversal and the ID column among the selected fields stay in the builder, and with fields selected before, as by an earlier call, it fails |
| Traversal.ChainQuery.OnlyID | backend/ent/account_query.go:235-249 | a result for none, one or more IDs under a limit of two; that limit and what IDs leaves stay in the builder |
| Traversal.SameEdge | backend/ent/account_query.go:83-87 | a step of a traversal reaches the rows that eager loading loads over the same edge |
| Traversal.TuplesArePaths | backend/ent/account_query.go:73-92 | whatever is asked of the steps, every tuple of the joins is a way through the chain |
| Traversal.LastsAreImage | backend/ent/account_query.go:73-92 | when no step is cut, the rows reached are the step-by-step relational image, filtered at each step |
| Traversal.DistinctByDefault | backend/ent/account_query.go:710-715 | whatever is asked of the steps, the rows are a page of different rows unless distinct rows were switched off |
| Traversal.ImageOnce | backend/ent/account_query.go:710-715 | unless they were switched off, a chain gives the page of its image, each row once, in order |
| Traversal.StepExact | backend/ent/account_query.go:751-785 | what a step hands on: its tuples that satisfy its predicates, or one for each value of the joined column, in order, cut by its offset and limit |
| Traversal.OnlyImage | backend/ent/account_query.go:751-785 | with any limits, offsets and distinct steps, no row outside the image is returned |
| Traversal.PathsListed | backend/ent/account_query.go:711-712 | with distinct rows switched off there is one row for each way through the chain, in order, cut by offset and limit |
| Traversal.DuplicatesExact | backend/ent/account_query.go:711-715 | and no duplicates exactly when no two ways end in the same row |
| Traversal.ZeroLimitEndsChain | backend/ent/account_query.go:776-783 | a limit of zero on a step before the last leaves no rows |
| Traversal.IdsListed | backend/ent/account_query.go:280-289 | the IDs are those of the image, each once, in order, cut by offset and limit |
| Traversal.OnlyExact | backend/ent/account_query.go:235-249 | not found, found or not singular exactly as the image has no row behind the offset, one or more; the row found sorts last |
| EdgeUpdate.EdgeSpecs | backend/ent/account_update.go:810-940 | replaying clears and then adds gives, for groups and for usage logs, what was there without the removed (nothing, if cleared) and with the added, and for the proxy the new one, none or the old one |
| EdgeUpdate.ToManySpecs | backend/ent/account_update.go:810-866 | one to-many edge does so on top of the specifications of the edges before it |
| EdgeUpdate.RemovalGuardExact | backend/ent/account_update.go:827 | a removal emitted without its guards leaves the wrong neighbours exactly when its list is empty, the edge is not cleared and has neighbours |
| QueryBuilder.Builder.Where | backend/ent/account_query.go:42-45 | appends predicates and changes nothing else of the value |
| QueryBuilder.Builder.Limit | backend/ent/account_query.go:48-51 | sets the limit in the shared context object |
| QueryBuilder.Builder.Offset | backend/ent/account_query.go:54-57 | sets the offset |
| QueryBuilder.Builder.Unique | backend/ent/account_query.go:61-64 | sets the unique flag |
| QueryBuilder.Builder.Order | backend/ent/account_query.go:67-70 | appends order terms |
| QueryBuilder.Builder.Select | backend/ent/account_query.go:441-447 | appends fields |
| QueryBuilder.Builder.ForUpdate | backend/ent/account_query.go:789-797 | appends the lock as a modifier and, on Postgres, switches distinct rows off |
| QueryBuilder.Builder.SqlQuery | backend/ent/account_query.go:751-785 | evaluating puts the clauses of the builder on the intermediate selector in place: columns, limit and offset replace, the others add |
| QueryBuilder.Builder.WithEdge | backend/ent/account_query.go:364-371 | a fresh configured builder replaces the one of the edge |
| QueryBuilder.Builder.Clone | backend/ent/account_query.go:342-360 | a fresh tree of builders, of the same value without modifiers at every level |
| QueryBuilder.Interleave | backend/ent/account_query.go:42-70 | builders that own disjoint objects do not see each other's operations, in any interleaving |
| QueryBuilder.CloneIsIndependent | backend/ent/account_query.go:340-360 | clone and original are independent for every later script of operations |
| QueryBuilder.ScriptAppends | backend/ent/account_query.go:42-70 | after any script of operations each list of the builder is the old one followed by what the operations appended, in order |
| QueryBuilder.ScriptSets | backend/ent/account_query.go:48-64 | after any script the limit, the offset and the unique flag are those of the last operation that set them |
| QueryBuilder.ScriptRequests | backend/ent/account_query.go:364-371 | after any script a requested edge has a new builder as the last request configured it |
| QueryBuilder.CloneIsExact | backend/ent/account_query.go:346-359 | a clone equals its original exactly when no builder of the tree has a modifier |
| AccountRow.DefaultsFill | backend/ent/account_create.go:451-505 | set fields stay, unset ones get their default, and it fails exactly when an unset field has no default |
| AccountRow.DefaultsStop | backend/ent/account_create.go:451-505 | when defaults fail, the fields before the first without a default are filled and those after it are not |
| AccountRow.FailedDefaultsFailCheck | backend/ent/account_create.go:1859-1867 | a mutation whose defaults failed does not pass check |
| AccountRow.CheckExact | backend/ent/account_create.go:508-574 | check passes exactly when all required fields are set and all set validated fields are valid |
| AccountRow.CheckPasses | backend/ent/account_create.go:508-574 | check reports the first rule, in order, that is broken |
| AccountRow.CheckAfterDefaults | backend/ent/account_create.go:451-574 | after defaults, check needs of the caller exactly name, platform and type, and valid values |
| AccountRow.ScanValues | backend/ent/account.go:138-159 | one holder kind for each column |
| AccountRow.AssignValues | backend/ent/account.go:163-367 | too few holders is a mismatch; otherwise the columns are assigned in order up to the first error |
| AccountRow.ReadRow | backend/ent/account.go:138-367 | scanning and assigning a row is the read-back that the next two rows are about |
| AccountRow.HoldersFit | backend/ent/account.go:138-367 | for every column list reading fails exactly when a JSON column does not decode, with an error for the first one |
| AccountRow.ReadBackExact | backend/ent/account.go:138-367 | for every column list the struct has exactly the columns that were read, by name; unknown columns are kept beside the fields, a NULL leaves a field alone and resets the ID |
| AccountRow.CreateReadAgree | backend/ent/account_create.go:594-744 | reading the stored row back gives the created node exactly when every set column is read, but for zero values of fields that are not pointers |
| AccountRow.CreateReplay | backend/ent/account_create.go:708-760 | replaying the edges of a create specification gives an account exactly the groups, the proxy and the usage logs of the mutation |
| BulkCreate.AccountCreateBulk.Mutate | backend/ent/account_create.go:1894-1897 | a mutator wrapped in its hooks is the chain from that hook on |
| BulkCreate.AccountCreateBulk.Run | backend/ent/account_create.go:1860-1893 | check, specify, call the next mutator or insert, then finish |
| BulkCreate.AccountCreateBulk.Save | backend/ent/account_create.go:1849-1906 | returns a prior error untouched; otherwise the state and error of the chain after all defaults |
| BulkLoop.ChainIsLine | backend/ent/account_create.go:1856-1899 | from every builder on, the chain equals entering in order, inserting once and leaving in reverse |
| BulkLoop.SaveIsLine | backend/ent/account_create.go:1849-1906 | Save refines the straight line, with the same state and error |
| BulkLoop.SaveExact | backend/ent/account_create.go:1849-1906 | for every bulk and all hooks: what is inserted, exactly which mutations are marked done, and the error |
| BulkLoop.InsertedExact | backend/ent/account_create.go:1869-1877 | the insert is given, for every builder in order, the fields of its mutation after its hooks and edges that replay to that mutation's neighbours |
| BulkLoop.HooksInOrder | backend/ent/account_create.go:1894-1896 | the mutation goes in through the first hook first, and the error comes out through the last hook first |
| BulkLoop.DoneNodes | backend/ent/account_create.go:1886-1892 | a mutation marked done points to the ID of its node, and the node is the one specified, with the ID the insert reported for it |
| BulkLoop.BatchOnce | backend/ent/account_create.go:1871-1882 | Save inserts at most once: when there are builders and all pass, on all specifications in order |
| BulkLoop.DoneIsSuffix | backend/ent/account_create.go:1883-1892 | after Save the mutations marked done are a suffix, empty unless the insert succeeded, also when hooks fail after forwarding |
| BulkLoop.SuccessExact | backend/ent/account_create.go:1849-1906 | when Save succeeds, always for an empty bulk, and that then every node is the specified one with its reported ID |
| BulkLoop.FirstError | backend/ent/account_create.go:1865-1885 | when hooks keep errors, the error of Save is that of the failing hook, or names the first broken rule, of the first failing builder in index order; else it is that of the insert, a constraint error when it is one |
| BulkLoop.DoneWithoutInsertExact | backend/ent/account_create.go:1871-1891 | for all hooks: mutations are done without a successful insert exactly when what is answered where the run stops has become a success at some mutator, by an absorbing or a recovering hook |
| BulkLoop.AbsorbIsOnlyWay | backend/ent/account_create.go:1871-1891 | without recovering hooks: exactly when some builder but the first is stopped by a success of its own hooks |
| BulkLoop.DroppedDefaultsError | backend/ent/account_create.go:1858-1867 | when hooks do not edit, a failed default keeps the insert from running |
| AuditParser.ParseExceptions | tools/check_pnpm_audit_exceptions.py:23-48 | the loop computes the line-by-line reading of the list |
| AuditParser.SplitPrinted | tools/check_pnpm_audit_exceptions.py:12-20 | a pair written bare or in quotes of either kind splits back into key and value, whatever quotes and colons the value has |
| AuditParser.SkipsForms | tools/check_pnpm_audit_exceptions.py:28-33 | blank lines, comments and top-level keys are skipped, whatever their indentation and rest |
| AuditParser.InertLinesDoNotMatter | tools/check_pnpm_audit_exceptions.py:28-46 | skipped lines, and lines with neither a dash nor a colon, can be dropped anywhere |
| AuditParser.HeaderIsIgnored | tools/check_pnpm_audit_exceptions.py:43-45 | before the first record every line is without effect |
| AuditParser.RaisesExact | tools/check_pnpm_audit_exceptions.py:39-42 | reading raises exactly when some line starts a record with something that is not a pair |
| AuditParser.RoundTrip | tools/check_pnpm_audit_exceptions.py:12-48 | reading a printed list, each value bare or in quotes of either kind, with lines without effect anywhere in it, returns its records |
| AuditGate.BuildIndex | tools/check_pnpm_audit_exceptions.py:156-185 | no error exactly when all entries are acceptable and keys unique; then the index is the list |
| AuditGate.CheckVuln | tools/check_pnpm_audit_exceptions.py:193-219 | one vulnerability adds an error exactly when the report up to it stops passing |
| AuditGate.CheckVulns | tools/check_pnpm_audit_exceptions.py:192-219 | no error exactly when all findings are identified and the first of every key covered |
| AuditGate.Gate | tools/check_pnpm_audit_exceptions.py:152-243 | the exit code is 0 exactly when list and report pass |
| AuditGate.RunGate | tools/check_pnpm_audit_exceptions.py:142-243 | reading, then the verdict |
| AuditGate.PassesExact | tools/check_pnpm_audit_exceptions.py:156-219 | the verdict in terms of the list and the report alone |
| AuditGate.VerdictExact | tools/check_pnpm_audit_exceptions.py:112-219 | the verdict from the strings of list and report: required fields, dates, packages without and advisories and severities also without regard to case |
| AuditGate.CaseDoesNotMatter | tools/check_pnpm_audit_exceptions.py:112-133 | the verdict does not change when letters of severities and advisories change case, in list or report |
| AuditGate.PassesMonotone | tools/check_pnpm_audit_exceptions.py:187-219 | with consistent severities a pass survives permuting, duplicating and dropping, and holds on every earlier day |
| AuditGate.EveryOrderExact | tools/check_pnpm_audit_exceptions.py:191-219 | list and report pass in every order of the report exactly when the list is in order and every finding is identified and excused, not just the first of its key |
| AuditGate.NoOrderExact | tools/check_pnpm_audit_exceptions.py:191-219 | they pass in no order exactly when the list is not in order, or some finding has no advisory or a key none of whose findings is excused |
| AuditGate.OrderIndependentExact | tools/check_pnpm_audit_exceptions.py:152-243 | the verdict is the same in every order exactly in these two cases |
| AuditGate.OrderMatters | tools/check_pnpm_audit_exceptions.py:204-215 | for every unexpired entry of high or critical severity, a report of two vulnerabilities that passes in one order and fails in the other |

## Left out

- The SQL library is not part of this model. What is assumed of it is what its join, DISTINCT, ORDER BY, LIMIT and
  OFFSET clauses mean, that replaying an edge specification without nodes clears the edge, and that rows of more than
  one column do not scan into a list of IDs.
- The single-row update builder: its edge part repeats the lines of the other one, which are modelled once.
- The field part of updates; modifiers and selected fields of the steps of a traversal, and entities without an ID
  column as a step of one.
- Errors of the database, and the validation of selected field names before a query runs.
- SQL text, dialects, drivers, transactions and row locks.
- Interceptors: they are stored and copied by builders, and otherwise the identity. The predicate that soft
  deletion adds is one more predicate of a query.
- `First`, `Only`, `Exist` and `Count` are the same few lines as `OnlyID` and `All`; aggregation and grouping are
  calls of the SQL library. `IDs` is modelled for builders without selected fields.
- DISTINCT in eager loading: tables are sets of distinct rows, so a plain query has no duplicates to remove. A parent list with
  repeated IDs is covered by the contracts of the loaders.
- A shared child object: the object graph has it, but the contracts speak of the tree below each node and do not say
  which nodes are the same object.
- Go slice capacity: a slice is a sequence, so appends to a shared backing array are not modelled.
- A builder or mutation that occurs twice in one bulk create: the model indexes mutations by builder.
- Hooks that forward more than once, or that forward another mutation than their own; edits of a mutation after
  forwarding.
- ON CONFLICT clauses and the upsert builders.
- The values of account fields beyond their column types: the struct, the mutation and the specification are
  indexed by column, and JSON is an encoding with an inverse.
- Reading the audit report: `iter_vulns` and `pick_advisory_id` choose the first non-empty of a list of fields. The
  vulnerabilities they yield are the input of the gate.
- Splitting the exception file into lines, dates beyond a partial parser to day numbers, error texts, and lower case
  outside A to Z.
