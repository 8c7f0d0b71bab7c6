/**
 The request methods of the adapter class: what each submits to the driver
 (entry point, SQL text, parameters in binding order) and what its promise
 settles to for a given event trace.
 */
module Database {
  import opened JsValues
  import opened Rows
  import opened Events
  import opened Promises
  import opened Requests

  /** A driver type tag, such as `TYPES.Int`. */
  datatype TypeTag = TypeTag(name: string)

  const IntType := TypeTag("Int")

  /** One `addParameter(name, type, value)` call. */
  datatype Param = Param(name: string, typeTag: TypeTag, value: JsValue)

  /** `execSql` is the parameterised entry point; `execSqlBatch` takes raw SQL only. */
  datatype EntryPoint = ExecSql | ExecSqlBatch

  /** What a method hands to the driver. */
  datatype Request = Request(entry: EntryPoint, sql: string, params: seq<Param>)

  /** A request together with the state its handlers reach on the driver's trace. */
  datatype Call = Call(request: Request, state: State)

  const IdentitySql := "select @@identity"

  /** `if (params) params.forEach(addParameter)`: absent parameters bind nothing. */
  function BoundParams(params: Option<seq<Param>>): seq<Param> {
    if params.Some? then params.value else []
  }

  /** `query(sql, params, config)`; `columns` is `config.columns == true`. */
  function Query(sql: string, params: Option<seq<Param>>, columns: bool, trace: seq<Event>): (c: Call)
    ensures c.request.entry == ExecSql && c.request.sql == sql
    ensures params.Some? ==> c.request.params == params.value
    ensures params.None? ==> c.request.params == []
    ensures c.state.rows == RowsOf(trace)
    ensures c.state.cols == LastColumns(trace)
  {
    RunAccumulates(QueryHandlers(columns), trace);
    Call(Request(ExecSql, sql, BoundParams(params)), Run(QueryHandlers(columns), trace))
  }

  /** `queryInt(sql, id)`: binds one Int parameter named "id". */
  function QueryInt(sql: string, id: JsValue, trace: seq<Event>): (c: Call)
    ensures c.request.entry == ExecSql && c.request.sql == sql
    ensures c.state.rows == RowsOf(trace)
  {
    RunAccumulates(QueryIntHandlers, trace);
    Call(Request(ExecSql, sql, [Param("id", IntType, id)]), Run(QueryIntHandlers, trace))
  }

  /** `queryLM(sql, params, rowfunc)`; only whether `rowfunc` is a function matters, and the
      rows it is called with are `state.consumed`. */
  function QueryLM(sql: string, params: Option<seq<Param>>, rowfuncIsFunction: bool, trace: seq<Event>): (c: Call)
    requires Admissible(QueryLMHandlers(rowfuncIsFunction), trace)
    ensures c.request.entry == ExecSql && c.request.sql == sql
    ensures params.Some? ==> c.request.params == params.value
    ensures params.None? ==> c.request.params == []
    ensures c.state.consumed == RowsOf(trace)
    ensures !rowfuncIsFunction ==> c.state.promise == Rejected(RowfuncError)
  {
    var h := QueryLMHandlers(rowfuncIsFunction);
    RunAccumulates(h, trace);
    if !rowfuncIsFunction then
      NonFunctionRowfuncStaysRejected(h, trace);
      Call(Request(ExecSql, sql, BoundParams(params)), Run(h, trace))
    else
      Call(Request(ExecSql, sql, BoundParams(params)), Run(h, trace))
  }

  /** With a non-function `rowfunc` the promise is rejected before the request is even
      built, and nothing the driver reports afterwards changes that. */
  lemma NonFunctionRowfuncStaysRejected(h: Handlers, t: seq<Event>)
    requires h == QueryLMHandlers(false) && Admissible(h, t)
    ensures Run(h, t).promise == Rejected(RowfuncError)
  {
    assert t[..0] == [];
    SettledIsFinal(h, t, 0);
  }

  /** `execute(sql, params)`. */
  function Execute(sql: string, params: Option<seq<Param>>, trace: seq<Event>): (c: Call)
    ensures c.request.entry == ExecSql && c.request.sql == sql
    ensures params.Some? ==> c.request.params == params.value
    ensures params.None? ==> c.request.params == []
    ensures c.state.count == LastCount(trace)
  {
    RunAccumulates(ExecuteHandlers, trace);
    Call(Request(ExecSql, sql, BoundParams(params)), Run(ExecuteHandlers, trace))
  }

  /** `executeInt(sql, id)`: binds one Int parameter named "id". */
  function ExecuteInt(sql: string, id: JsValue, trace: seq<Event>): (c: Call)
    ensures c.request.entry == ExecSql && c.request.sql == sql
    ensures c.state.count == LastCount(trace)
  {
    RunAccumulates(ExecuteHandlers, trace);
    Call(Request(ExecSql, sql, [Param("id", IntType, id)]), Run(ExecuteHandlers, trace))
  }

  /** `executeBatch(sql)`: raw SQL through the batch entry point, no parameters. */
  function ExecuteBatch(sql: string, trace: seq<Event>): (c: Call)
    ensures c.request == Request(ExecSqlBatch, sql, [])
    ensures c.state.count == LastCount(trace)
  {
    RunAccumulates(ExecuteHandlers, trace);
    Call(Request(ExecSqlBatch, sql, []), Run(ExecuteHandlers, trace))
  }

  /** `identity()`: the fixed query `select @@identity`, no parameters. */
  function Identity(trace: seq<Event>): (c: Call)
    requires RowsHaveCells(trace)
    ensures c.request == Request(ExecSql, IdentitySql, [])
    ensures c.state.id == LastFirstCell(trace)
  {
    assert Admissible(IdentityHandlers, trace);
    RunAccumulates(IdentityHandlers, trace);
    Call(Request(ExecSql, IdentitySql, []), Run(IdentityHandlers, trace))
  }

  /** `query` settles at the first completion callback: an error rejects with that error
      and nothing accumulated is delivered; otherwise it resolves to the rows that arrived
      before it, in order, paired with the most recent column metadata when asked for. */
  lemma QuerySettlesAtFirstDone(sql: string, params: Option<seq<Param>>, columns: bool, trace: seq<Event>, k: nat)
    requires k < |trace| && trace[k].Done?
    requires NoSettlingEvent(QueryHandlers(columns), trace[..k])
    ensures Query(sql, params, columns, trace).state.promise ==
      if trace[k].err.Some? then Rejected(trace[k].err.value)
      else if columns then Resolved(RowsWithColumns(LastColumns(trace[..k]), RowsOf(trace[..k])))
      else Resolved(RowList(RowsOf(trace[..k])))
  {
    var h := QueryHandlers(columns);
    FirstSettlingEventDecides(h, trace, k);
    UnsettledUntilSettlingEvent(h, trace[..k]);
    RunAccumulates(h, trace[..k]);
  }

  /** Without a completion callback, `query` never settles. */
  lemma QueryPendingWithoutDone(sql: string, params: Option<seq<Param>>, columns: bool, trace: seq<Event>)
    requires NoSettlingEvent(QueryHandlers(columns), trace)
    ensures Query(sql, params, columns, trace).state.promise.Pending?
  {
    UnsettledUntilSettlingEvent(QueryHandlers(columns), trace);
  }

  /** When the driver sends no row after the completion callback, a successful `query`
      resolves to every row of the trace, in arrival order. */
  lemma QueryDeliversAllRows(sql: string, params: Option<seq<Param>>, columns: bool, trace: seq<Event>, k: nat)
    requires k < |trace| && trace[k].Done? && trace[k].err.None?
    requires NoSettlingEvent(QueryHandlers(columns), trace[..k])
    requires forall i :: k < i < |trace| ==> !trace[i].Row?
    ensures Query(sql, params, columns, trace).state.promise ==
      if columns then Resolved(RowsWithColumns(LastColumns(trace[..k]), RowsOf(trace)))
      else Resolved(RowList(RowsOf(trace)))
  {
    QuerySettlesAtFirstDone(sql, params, columns, trace, k);
    NoLaterRows(trace, k);
  }

  /** `queryInt` settles exactly like `query` without column metadata, and binds its id. */
  lemma QueryIntIsQuery(sql: string, id: JsValue, trace: seq<Event>)
    ensures QueryInt(sql, id, trace).state.promise == Query(sql, None, false, trace).state.promise
    ensures QueryInt(sql, id, trace).request.params == [Param("id", IntType, id)]
  {
    if !NoSettlingEvent(QueryIntHandlers, trace) {
      var k := FirstSettlingExists(QueryIntHandlers, trace);
      FirstSettlingEventDecides(QueryIntHandlers, trace, k);
      UnsettledUntilSettlingEvent(QueryIntHandlers, trace[..k]);
      RunAccumulates(QueryIntHandlers, trace[..k]);
      QuerySettlesAtFirstDone(sql, None, false, trace, k);
    } else {
      UnsettledUntilSettlingEvent(QueryIntHandlers, trace);
      QueryPendingWithoutDone(sql, None, false, trace);
    }
  }

  /** `queryLM` with a callable `rowfunc` settles at the first completion callback: an
      error rejects with that error, otherwise it resolves to the driver's row count. */
  lemma QueryLMSettlesAtFirstDone(sql: string, params: Option<seq<Param>>, trace: seq<Event>, k: nat)
    requires k < |trace| && trace[k].Done?
    requires NoSettlingEvent(QueryLMHandlers(true), trace[..k])
    ensures QueryLM(sql, params, true, trace).state.promise ==
      if trace[k].err.Some? then Rejected(trace[k].err.value) else Resolved(Count(trace[k].rowCount))
  {
    FirstSettlingEventDecides(QueryLMHandlers(true), trace, k);
    UnsettledUntilSettlingEvent(QueryLMHandlers(true), trace[..k]);
  }

  /** The execute family settles at the first event that is either an error callback or
      `requestCompleted`: the error rejects; `requestCompleted` resolves to the count of the
      last error-free completion callback before it, or 0 when there was none. */
  lemma ExecuteSettlesAtCompletionOrError(sql: string, params: Option<seq<Param>>, trace: seq<Event>, k: nat)
    requires k < |trace| && (trace[k].RequestCompleted? || (trace[k].Done? && trace[k].err.Some?))
    requires NoSettlingEvent(ExecuteHandlers, trace[..k])
    ensures Execute(sql, params, trace).state.promise ==
      if trace[k].RequestCompleted? then Resolved(Count(LastCount(trace[..k])))
      else Rejected(trace[k].err.value)
  {
    FirstSettlingEventDecides(ExecuteHandlers, trace, k);
    UnsettledUntilSettlingEvent(ExecuteHandlers, trace[..k]);
    RunAccumulates(ExecuteHandlers, trace[..k]);
  }

  /** Without `requestCompleted` or an error callback, the execute family never settles,
      however many successful completion callbacks arrive. */
  lemma ExecutePendingWithoutCompletion(sql: string, params: Option<seq<Param>>, trace: seq<Event>)
    requires NoSettlingEvent(ExecuteHandlers, trace)
    ensures Execute(sql, params, trace).state.promise.Pending?
  {
    UnsettledUntilSettlingEvent(ExecuteHandlers, trace);
  }

  /** `executeInt` and `executeBatch` settle exactly as `execute` does; they differ only in
      the request: one Int parameter named "id", or the raw batch entry point. */
  lemma ExecuteVariantsAgree(sql: string, params: Option<seq<Param>>, id: JsValue, trace: seq<Event>)
    ensures ExecuteInt(sql, id, trace).state == Execute(sql, params, trace).state
    ensures ExecuteBatch(sql, trace).state == Execute(sql, params, trace).state
    ensures ExecuteInt(sql, id, trace).request.params == [Param("id", IntType, id)]
  {
  }

  /** The execute family only ever resolves to a count. */
  lemma ExecuteResolvesToCount(sql: string, params: Option<seq<Param>>, trace: seq<Event>)
    ensures Execute(sql, params, trace).state.promise.Resolved? ==>
      Execute(sql, params, trace).state.promise.value.Count?
  {
    if NoSettlingEvent(ExecuteHandlers, trace) {
      UnsettledUntilSettlingEvent(ExecuteHandlers, trace);
    } else {
      var k := FirstSettlingExists(ExecuteHandlers, trace);
      ExecuteSettlesAtCompletionOrError(sql, params, trace, k);
    }
  }

  /** `identity` settles at the first event that is either an error callback or
      `requestCompleted`: the error rejects; `requestCompleted` resolves to the first cell
      of the last row before it, or to 0 when no row came first. */
  lemma IdentitySettlesAtCompletionOrError(trace: seq<Event>, k: nat)
    requires RowsHaveCells(trace)
    requires k < |trace| && (trace[k].RequestCompleted? || (trace[k].Done? && trace[k].err.Some?))
    requires NoSettlingEvent(IdentityHandlers, trace[..k])
    ensures RowsHaveCells(trace[..k])
    ensures Identity(trace).state.promise ==
      if trace[k].RequestCompleted? then Resolved(Scalar(LastFirstCell(trace[..k])))
      else Rejected(trace[k].err.value)
  {
    assert Admissible(IdentityHandlers, trace);
    FirstSettlingEventDecides(IdentityHandlers, trace, k);
    UnsettledUntilSettlingEvent(IdentityHandlers, trace[..k]);
    RunAccumulates(IdentityHandlers, trace[..k]);
  }

  /** With no row before `requestCompleted`, `identity` resolves to 0. */
  lemma IdentityZeroWithoutRows(trace: seq<Event>, k: nat)
    requires RowsHaveCells(trace)
    requires k < |trace| && trace[k].RequestCompleted?
    requires NoSettlingEvent(IdentityHandlers, trace[..k])
    requires forall i :: 0 <= i < k ==> !trace[i].Row?
    ensures Identity(trace).state.promise == Resolved(Scalar(Num(0)))
  {
    IdentitySettlesAtCompletionOrError(trace, k);
    LastFirstCellWithoutRows(trace[..k]);
  }
}
