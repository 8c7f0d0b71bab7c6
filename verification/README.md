# mssql-functions request adapter, modelled in Dafny

`index.js` wraps the `tedious` SQL Server driver in a promise-returning class.
This project models the parts of it that decide what each promise settles to:

- the constructor's normalisation of a legacy configuration (`config.dfy`);
- how a row event becomes a name-to-value object and a column-metadata event a
  list of `{colName, dataLength, type, typeName}` (`rows.dfy`);
- the per-request handlers of `query`, `queryInt`, `queryLM`, `execute`,
  `executeInt`, `executeBatch` and `identity`, as one state machine folded
  over the driver's event trace (`events.dfy`, `requests.dfy`, `database.dfy`);
- the `batchsql` sequencer (`batch.dfy`).

The driver is an input: for one request it is an ordered trace of
`ColumnMetadata(columns)`, `Row(cells)`, `Done(err, rowCount)` (the request's
completion callback) and `RequestCompleted` events. A promise is `Pending`,
`Resolved(v)` or `Rejected(e)`, and `resolve`/`reject` only act on a pending
promise. `Requests.Run` applies a method's handlers to the trace in order.
Each request method in `Database` returns the request it submits and the
state its handlers reach. The request is the entry point, the SQL text and
the parameters in binding order. For `batchsql`, the oracle is one trace per
command, the trace of that command's `execute` request.

JavaScript values are `JsValues.JsValue`. A configuration is a map from
property name to value, so a missing key reads as `undefined` and `delete`
removes the key. `config.authentication == undefined` holds for undefined and
for null. `userName`/`password` are tested with JavaScript truthiness.

## Model

| member | source | states |
|---|---|---|
| Config.Normalize | index.js:21-35 | a legacy config (no authentication, truthy userName and password) gets `authentication = {type: "default", options: {userName, password}}`, loses the top-level userName and password and keeps every other property; any other config is returned unchanged |
| Config.NormalizeIdempotent | index.js:23-34 | normalising a normalised config changes nothing |
| Config.NormalizeKeepsCredentials | index.js:24-30 | the synthesised block has type "default" and carries exactly the legacy userName and password |
| Rows.Describe | index.js:90-101 | one descriptor per driver column, in order, with colName, dataLength, type id and type name taken from that column |
| Rows.BuildRowKeys | index.js:103-108 | the row object has one key per column name of the event other than `__proto__` |
| Rows.BuildRowLastCellWins | index.js:105-107 | a cell that is the last with its name, for any name but `__proto__`, puts its value in the row under that name |
| Rows.EveryKeyHasLastCell | index.js:104-107 | every column name of a row event has a last cell carrying it, so together with `BuildRowLastCellWins` every value of the row comes from such a last cell |
| Events.RowsOfAppend | index.js:103-109 | the rows of a trace are the rows of its first part followed by those of its second part, so arrival order is kept |
| Events.RowsOfFollowsRowEvents | index.js:103-109 | the rows of a trace are exactly one row per row event, the j-th row built from the j-th row event |
| Requests.StepPromise | index.js:155-161 | a handler never changes a settled promise, only a settling event changes a pending one, and a settling event always settles a pending one |
| Requests.SettledIsFinal | index.js:152-161 | once the promise has settled after some prefix of the trace, no later event changes it |
| Requests.UnsettledUntilSettlingEvent | index.js:185-194 | before any settling event the promise is exactly as it was at submission |
| Requests.FirstSettlingEventDecides | index.js:74-88 | the promise's final state is what the first settling event's handler makes of the state left by the events before it, and it is settled |
| Requests.RunAccumulates | index.js:72-109 | whatever the promise did, query's rows are all rows in arrival order and its columns those of the latest metadata event; queryLM hands every row to rowfunc in order; execute's count is the last error-free row count, or 0; identity's id is the first cell of the last row, or 0 |
| Database.Query | index.js:70-115 | query submits through execSql with the given SQL and the given parameters in order, or none when they are absent; its accumulated rows and columns are the trace's rows and latest column metadata |
| Database.QueryInt | index.js:122-145 | queryInt submits through execSql with the given SQL, and its rows are the trace's rows in arrival order |
| Database.QueryLM | index.js:150-175 | queryLM submits the request, with the given parameters in order or none, even with a non-function rowfunc; rowfunc receives every row in arrival order; a non-function rowfunc leaves the promise rejected with "Parameter rowfunc must be a function." |
| Database.NonFunctionRowfuncStaysRejected | index.js:153-159 | the early rejection for a non-function rowfunc survives every later callback |
| Database.Execute | index.js:180-200 | execute submits through execSql with the given SQL and the given parameters in order, or none when they are absent; its count is the row count of the last error-free completion callback, 0 before any |
| Database.ExecuteInt | index.js:207-225 | executeInt submits through execSql with the given SQL; its count follows the same rule as execute's |
| Database.ExecuteBatch | index.js:231-248 | executeBatch submits the raw SQL through execSqlBatch with no parameters; its count follows the same rule as execute's |
| Database.Identity | index.js:271-291 | identity submits `select @@identity` with no parameters; its id is the first cell of the last row, or 0 |
| Database.QuerySettlesAtFirstDone | index.js:75-88 | query settles at the first completion callback: an error rejects with that error and delivers no rows; otherwise it resolves to the rows that came before it, or to `{columns, rows}` with the latest metadata when `columns` is set |
| Database.QueryPendingWithoutDone | index.js:74-88 | without a completion callback query never settles |
| Database.QueryDeliversAllRows | index.js:79-108 | when no row follows the completion callback, a successful query resolves to every row of the trace in arrival order, wrapped as `{columns, rows}` with the latest column metadata when `columns` is set |
| Database.QueryIntIsQuery | index.js:122-145 | queryInt settles exactly as query without column metadata and binds one Int parameter named "id" |
| Database.QueryLMSettlesAtFirstDone | index.js:155-161 | queryLM with a callable rowfunc settles at the first completion callback: rejected with its error, or resolved to the driver's rowCount |
| Database.ExecuteSettlesAtCompletionOrError | index.js:182-194 | execute settles at the first error callback or requestCompleted: the error rejects; requestCompleted resolves to the count of the last error-free completion callback before it, or 0 |
| Database.ExecutePendingWithoutCompletion | index.js:185-194 | without requestCompleted or an error, execute never settles, however many successful completion callbacks arrive |
| Database.ExecuteVariantsAgree | index.js:207-248 | executeInt and executeBatch reach the same state as execute on every trace; executeInt binds one Int parameter named "id" |
| Database.ExecuteResolvesToCount | index.js:192-194 | execute only ever resolves to a count |
| Database.IdentitySettlesAtCompletionOrError | index.js:274-287 | identity settles at the first error callback or requestCompleted: the error rejects; requestCompleted resolves to the first cell of the last row before it, or 0 |
| Database.IdentityZeroWithoutRows | index.js:274-287 | with no row before requestCompleted, identity resolves to 0 |
| Batch.BatchSql | index.js:296-325 | batchsql never rejects; it resolves exactly when every execute settles, then with one record per command in command order, holding sql and either the count or the error message; a failure does not stop later commands, and every command is sent through execute; an execute that never settles stalls the batch with no later command sent |
| Batch.RecordHasCountOrError | index.js:303-313 | every batch record holds exactly one of count and error |
| Batch.RecordedCountIsRowCount | index.js:307-310 | a recorded count is always a row count |

## Left out

- Connecting (index.js:44-55), the transaction wrappers (index.js:330-370) and `bulkLoad` (index.js:253-266) each hand one driver callback's error to reject, or resolve. They have no logic of their own to model.
- Disconnecting (index.js:60-65) has no callback and no promise: when a connection is open it closes it at once and clears `this.connection`. The connection object is not modelled.
- The `types` getter (index.js:37-39) returns the driver's type table unchanged.
- Sockets, TLS and the driver itself. `new Request`, `execSql`, `execSqlBatch` and `addParameter` appear only as the submitted `Request` and the event trace. The optional fourth argument of `addParameter` is not modelled.
- Async scheduling and interleaving of concurrent requests on one connection. The source does not serialise requests, so there is nothing to model there.
- Floating-point numbers, NaN and concrete SQL value types. Numbers are integers and cell values are abstract `JsValue`s.
- The loose equality in `config.columns == true` is not modelled. The flag is a boolean.
- Exceptions thrown inside event handlers. Three are possible: `identity` on a row with no cells, where `columns[0].value` throws; `queryLM` on any row when `rowfunc` is not a function; and a callable `rowfunc` that itself throws (index.js:168). `Requests.Admissible` excludes the first two kinds of trace. The third is not excluded: the model records the call to `rowfunc` in `consumed` and treats it as returning. The model says nothing about what happens after any such throw.
- Config.Normalize: the source mutates the caller's configuration object in place. The model returns a new value, so the aliasing is not modelled.
- Rows.BuildRow: a cell named `__proto__` is dropped. In the source, `row["__proto__"] = value` creates no key either, but when the value is an object or null it replaces the row's prototype, so the row inherits that object's properties. Prototypes are not modelled.
- Database.Query: the resolved row array is modelled as a snapshot taken when the completion callback runs. In the source it is the same array the row handler keeps appending to, so a row arriving after the completion callback would also appear in the resolved value. `QueryDeliversAllRows` covers the usual trace, in which no row follows the completion callback.
- Database.QueryInt: the same holds for `queryInt` (index.js:124, 130, 139). Its resolved array is the one its row handler keeps appending to.
