/**
 The driver, seen from one request: an ordered trace of the callbacks it makes.
 The functions below summarise a trace independently of any request's handlers;
 they are the reference the request state machine is proved against.
 */
module Events {
  import opened JsValues
  import opened Rows

  datatype Event =
    | ColumnMetadata(columns: seq<ColumnInfo>)   // the 'columnMetadata' event
    | Row(cells: seq<Cell>)                      // the 'row' event
    | Done(err: Option<Error>, rowCount: int)    // the request's completion callback
    | RequestCompleted                           // the 'requestCompleted' event

  /** The objects built from the row events of a trace, in arrival order. */
  function RowsOf(t: seq<Event>): seq<RowObject>
    decreases |t|
  {
    if |t| == 0 then []
    else
      var e := t[|t| - 1];
      RowsOf(t[..|t| - 1]) + (if e.Row? then [BuildRow(e.cells)] else [])
  }

  /** The descriptors of the most recent column-metadata event, or none. */
  function LastColumns(t: seq<Event>): seq<ColumnDescriptor>
    decreases |t|
  {
    if |t| == 0 then []
    else
      var e := t[|t| - 1];
      if e.ColumnMetadata? then Describe(e.columns) else LastColumns(t[..|t| - 1])
  }

  /** The row count of the most recent error-free completion callback, or 0. */
  function LastCount(t: seq<Event>): int
    decreases |t|
  {
    if |t| == 0 then 0
    else
      var e := t[|t| - 1];
      if e.Done? && e.err.None? then e.rowCount else LastCount(t[..|t| - 1])
  }

  /** Every row event of the trace has at least one cell. */
  predicate RowsHaveCells(t: seq<Event>) {
    forall i :: 0 <= i < |t| && t[i].Row? ==> |t[i].cells| > 0
  }

  /** The first cell's value of the most recent row event, or the number 0. */
  function LastFirstCell(t: seq<Event>): JsValue
    requires RowsHaveCells(t)
    decreases |t|
  {
    if |t| == 0 then Num(0)
    else
      var e := t[|t| - 1];
      if e.Row? then e.cells[0].value else LastFirstCell(t[..|t| - 1])
  }

  /** Summaries distribute over concatenation: the rows of a trace are the rows of its
      first part followed by the rows of its second part, so arrival order is kept. */
  lemma {:induction false} RowsOfAppend(a: seq<Event>, b: seq<Event>)
    ensures RowsOf(a + b) == RowsOf(a) + RowsOf(b)
    decreases |b|
  {
    if |b| > 0 {
      var n := |b| - 1;
      assert (a + b)[..|a + b| - 1] == a + b[..n];
      RowsOfAppend(a, b[..n]);
    } else {
      assert a + b == a;
    }
  }

  /** The positions of the row events of a trace, in ascending order. */
  function RowPositions(t: seq<Event>): (r: seq<nat>)
    ensures forall j :: 0 <= j < |r| ==> r[j] < |t| && t[r[j]].Row?
    ensures forall j1, j2 :: 0 <= j1 < j2 < |r| ==> r[j1] < r[j2]
    ensures forall i :: 0 <= i < |t| && t[i].Row? ==> i in r
    decreases |t|
  {
    if |t| == 0 then []
    else
      var n := |t| - 1;
      var before := RowPositions(t[..n]);
      assert forall i :: 0 <= i < n ==> t[..n][i] == t[i];
      if t[n].Row? then before + [n] else before
  }

  /** The rows of a trace are exactly the rows built from its row events, one per event, in
      the order those events arrived. */
  lemma {:induction false} RowsOfFollowsRowEvents(t: seq<Event>)
    ensures |RowsOf(t)| == |RowPositions(t)|
    ensures forall j :: 0 <= j < |RowsOf(t)| ==> RowsOf(t)[j] == BuildRow(t[RowPositions(t)[j]].cells)
    decreases |t|
  {
    if |t| > 0 {
      var n := |t| - 1;
      RowsOfFollowsRowEvents(t[..n]);
      assert forall i :: 0 <= i < n ==> t[..n][i] == t[i];
    }
  }

  /** A trace without row events yields no rows. */
  lemma {:induction false} NoRowsNoRowsOf(t: seq<Event>)
    requires forall i :: 0 <= i < |t| ==> !t[i].Row?
    ensures RowsOf(t) == []
    decreases |t|
  {
    if |t| > 0 {
      var n := |t| - 1;
      assert forall i :: 0 <= i < n ==> t[..n][i] == t[i];
      NoRowsNoRowsOf(t[..n]);
    }
  }

  /** Events after position `k` that are not rows add no rows. */
  lemma NoLaterRows(t: seq<Event>, k: nat)
    requires k <= |t|
    requires forall i :: k <= i < |t| ==> !t[i].Row?
    ensures RowsOf(t) == RowsOf(t[..k])
  {
    var tail := t[k..];
    assert t == t[..k] + tail;
    assert forall i :: 0 <= i < |tail| ==> tail[i] == t[k + i];
    RowsOfAppend(t[..k], tail);
    NoRowsNoRowsOf(tail);
  }

  /** A trace without row events leaves the identity value at 0. */
  lemma {:induction false} LastFirstCellWithoutRows(t: seq<Event>)
    requires forall i :: 0 <= i < |t| ==> !t[i].Row?
    ensures RowsHaveCells(t) && LastFirstCell(t) == Num(0)
    decreases |t|
  {
    if |t| > 0 {
      var n := |t| - 1;
      assert forall i :: 0 <= i < n ==> t[..n][i] == t[i];
      LastFirstCellWithoutRows(t[..n]);
    }
  }
}
