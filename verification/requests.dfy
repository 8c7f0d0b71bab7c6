/**
 The per-request state machine behind `query`, `queryInt`, `queryLM`, `execute`,
 `executeInt`, `executeBatch` and `identity`. Each of those methods closes over
 a few mutable accumulators, registers handlers on the request and returns a
 promise; here the accumulators and the promise are one immutable `State`, the
 handlers are `Step`, and a request's life is the left fold `Run` of `Step`
 over the driver's event trace.
 */
module Requests {
  import opened JsValues
  import opened Rows
  import opened Events
  import opened Promises

  /** Which handlers a method registers. `execute`, `executeInt` and `executeBatch`
      register the same ones and differ only in how the request is submitted. */
  datatype Handlers =
    | QueryHandlers(columns: bool)                 // query; `columns` is `config.columns == true`
    | QueryIntHandlers                             // queryInt
    | QueryLMHandlers(rowfuncIsFunction: bool)     // queryLM
    | ExecuteHandlers                              // execute, executeInt, executeBatch
    | IdentityHandlers                             // identity

  /** What a request's promise resolves to. */
  datatype Outcome =
    | RowList(rows: seq<RowObject>)
    | RowsWithColumns(columns: seq<ColumnDescriptor>, rows: seq<RowObject>)
    | Count(n: int)
    | Scalar(v: JsValue)

  /** The closure state of one request: `cols`, `rows` (query, queryInt), the rows handed
      to `rowfunc` (queryLM), `count` (execute family), `id` (identity), and the promise. */
  datatype State = State(
    cols: seq<ColumnDescriptor>,
    rows: seq<RowObject>,
    consumed: seq<RowObject>,
    count: int,
    id: JsValue,
    promise: Promise<Outcome>)

  const RowfuncError := Error("Parameter rowfunc must be a function.")

  /** The state when the request is submitted. queryLM rejects before building the
      request when `rowfunc` is not a function, and then carries on regardless. */
  function Initial(h: Handlers): State {
    State([], [], [], 0, Num(0),
      if h == QueryLMHandlers(false) then Rejected(RowfuncError) else Pending)
  }

  /** The handler for `e` does not throw: identity reads the first cell of every row, and
      queryLM calls `rowfunc` on every row. */
  predicate Handles(h: Handlers, e: Event) {
    e.Row? ==> !(h.IdentityHandlers? && |e.cells| == 0) && h != QueryLMHandlers(false)
  }

  /** Every event of the trace is one whose handler does not throw. */
  predicate Admissible(h: Handlers, t: seq<Event>) {
    forall i :: 0 <= i < |t| ==> Handles(h, t[i])
  }

  /** The handlers `h` registers, applied to one event. */
  function Step(h: Handlers, s: State, e: Event): State
    requires Handles(h, e)
  {
    match e
    case ColumnMetadata(columns) =>
      if h.QueryHandlers? then s.(cols := Describe(columns)) else s
    case Row(cells) =>
      if h.QueryHandlers? || h.QueryIntHandlers? then s.(rows := s.rows + [BuildRow(cells)])
      else if h.QueryLMHandlers? then s.(consumed := s.consumed + [BuildRow(cells)])
      else if h.IdentityHandlers? then s.(id := cells[0].value)
      else s
    case Done(err, rowCount) =>
      if err.Some? then s.(promise := Reject(s.promise, err.value))
      else (
        match h
        case QueryHandlers(columns) =>
          s.(promise := Resolve(s.promise, if columns then RowsWithColumns(s.cols, s.rows) else RowList(s.rows)))
        case QueryIntHandlers => s.(promise := Resolve(s.promise, RowList(s.rows)))
        case QueryLMHandlers(_) => s.(promise := Resolve(s.promise, Count(rowCount)))
        case ExecuteHandlers => s.(count := rowCount)
        case IdentityHandlers => s)
    case RequestCompleted =>
      match h
      case ExecuteHandlers => s.(promise := Resolve(s.promise, Count(s.count)))
      case IdentityHandlers => s.(promise := Resolve(s.promise, Scalar(s.id)))
      case _ => s
  }

  /** The state after the handlers have seen every event of `t`, in order. */
  function Run(h: Handlers, t: seq<Event>): State
    requires Admissible(h, t)
    decreases |t|
  {
    if |t| == 0 then Initial(h)
    else Step(h, Run(h, t[..|t| - 1]), t[|t| - 1])
  }

  /** The events whose handler may settle the promise under `h`. */
  predicate Settles(h: Handlers, e: Event) {
    || (e.Done? && e.err.Some?)
    || (e.Done? && (h.QueryHandlers? || h.QueryIntHandlers? || h.QueryLMHandlers?))
    || (e.RequestCompleted? && (h.ExecuteHandlers? || h.IdentityHandlers?))
  }

  predicate NoSettlingEvent(h: Handlers, t: seq<Event>) {
    forall i :: 0 <= i < |t| ==> !Settles(h, t[i])
  }

  lemma AdmissiblePrefix(h: Handlers, t: seq<Event>, k: nat)
    requires Admissible(h, t)
    requires k <= |t|
    ensures Admissible(h, t[..k])
  {
    assert forall i :: 0 <= i < k ==> t[..k][i] == t[i];
  }

  /** One step never changes a settled promise, and only a settling event changes a
      pending one. */
  lemma StepPromise(h: Handlers, s: State, e: Event)
    requires Handles(h, e)
    ensures s.promise.Settled() ==> Step(h, s, e).promise == s.promise
    ensures !Settles(h, e) ==> Step(h, s, e).promise == s.promise
    ensures s.promise.Pending? && Settles(h, e) ==> Step(h, s, e).promise.Settled()
  {
  }

  /** Settle-once: once the promise has settled after a prefix of the trace, no later
      event changes it, whether the later handlers call resolve, reject or neither. */
  lemma {:induction false} SettledIsFinal(h: Handlers, t: seq<Event>, k: nat)
    requires Admissible(h, t)
    requires k <= |t|
    requires Admissible(h, t[..k]) && Run(h, t[..k]).promise.Settled()
    ensures Run(h, t).promise == Run(h, t[..k]).promise
    decreases |t|
  {
    if k < |t| {
      var n := |t| - 1;
      var p := t[..n];
      AdmissiblePrefix(h, t, n);
      assert p[..k] == t[..k];
      SettledIsFinal(h, p, k);
      StepPromise(h, Run(h, p), t[n]);
    } else {
      assert t[..k] == t;
    }
  }

  /** Until a settling event arrives, the promise is as it was at submission. */
  lemma {:induction false} UnsettledUntilSettlingEvent(h: Handlers, t: seq<Event>)
    requires Admissible(h, t)
    requires NoSettlingEvent(h, t)
    ensures Run(h, t).promise == Initial(h).promise
    decreases |t|
  {
    if |t| > 0 {
      var n := |t| - 1;
      AdmissiblePrefix(h, t, n);
      assert NoSettlingEvent(h, t[..n]) by {
        assert forall i :: 0 <= i < n ==> t[..n][i] == t[i];
      }
      UnsettledUntilSettlingEvent(h, t[..n]);
      StepPromise(h, Run(h, t[..n]), t[n]);
    }
  }

  /** The first settling event decides the promise for good: it is what that event's
      handler makes of the state the earlier events left. */
  lemma FirstSettlingEventDecides(h: Handlers, t: seq<Event>, k: nat)
    requires Admissible(h, t)
    requires k < |t| && Settles(h, t[k])
    requires NoSettlingEvent(h, t[..k])
    ensures Admissible(h, t[..k])
    ensures Run(h, t).promise == Step(h, Run(h, t[..k]), t[k]).promise
    ensures Run(h, t).promise.Settled()
  {
    AdmissiblePrefix(h, t, k);
    AdmissiblePrefix(h, t, k + 1);
    assert t[..k + 1][..k] == t[..k];
    UnsettledUntilSettlingEvent(h, t[..k]);
    StepPromise(h, Run(h, t[..k]), t[k]);
    assert Run(h, t[..k + 1]) == Step(h, Run(h, t[..k]), t[k]);
    SettledIsFinal(h, t, k + 1);
  }

  /** A trace with a settling event has a first one. */
  lemma {:induction false} FirstSettlingExists(h: Handlers, t: seq<Event>) returns (k: nat)
    requires !NoSettlingEvent(h, t)
    ensures k < |t| && Settles(h, t[k]) && NoSettlingEvent(h, t[..k])
    decreases |t|
  {
    var n := |t| - 1;
    if NoSettlingEvent(h, t[..n]) {
      assert forall i :: 0 <= i < n ==> t[..n][i] == t[i];
      k := n;
    } else {
      k := FirstSettlingExists(h, t[..n]);
      assert t[..n][..k] == t[..k];
    }
  }

  /** The accumulators hold the trace summaries, whatever the promise did meanwhile:
      query's rows are the trace's rows in arrival order and its columns those of the most
      recent metadata event; queryLM has handed every row to `rowfunc`, in order; the
      execute family's count is the last error-free row count (0 before any); identity's
      id is the first cell of the most recent row (0 before any). */
  lemma {:induction false} RunAccumulates(h: Handlers, t: seq<Event>)
    requires Admissible(h, t)
    ensures h.QueryHandlers? || h.QueryIntHandlers? ==> Run(h, t).rows == RowsOf(t)
    ensures h.QueryHandlers? ==> Run(h, t).cols == LastColumns(t)
    ensures h.QueryLMHandlers? ==> Run(h, t).consumed == RowsOf(t)
    ensures h.ExecuteHandlers? ==> Run(h, t).count == LastCount(t)
    ensures h.IdentityHandlers? ==> RowsHaveCells(t) && Run(h, t).id == LastFirstCell(t)
    decreases |t|
  {
    if |t| > 0 {
      var n := |t| - 1;
      AdmissiblePrefix(h, t, n);
      RunAccumulates(h, t[..n]);
      assert Handles(h, t[n]);
    }
  }
}
