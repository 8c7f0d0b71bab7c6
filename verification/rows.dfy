/**
 How the adapter turns the driver's per-event data into caller-facing values:
 a row event into a name-to-value object, a column-metadata event into a list
 of column descriptors.
 */
module Rows {
  import opened JsValues

  /** The type information the driver attaches to a column. */
  datatype DataType = DataType(id: int, name: string)

  /** The driver's description of one result column. */
  datatype ColumnInfo = ColumnInfo(colName: string, dataLength: int, dataType: DataType)

  /** One cell of a row event: the metadata of its column and its value. */
  datatype Cell = Cell(metadata: ColumnInfo, value: JsValue)

  /** A column as reported to callers: `{colName, dataLength, type, typeName}`. */
  datatype ColumnDescriptor = ColumnDescriptor(colName: string, dataLength: int, typeId: int, typeName: string)

  /** A row as delivered to callers: column name to value. */
  type RowObject = map<string, JsValue>

  /** The column descriptors of one column-metadata event, in the driver's order. */
  function Describe(columns: seq<ColumnInfo>): (r: seq<ColumnDescriptor>)
    ensures |r| == |columns|
    ensures forall i :: 0 <= i < |columns| ==>
      && r[i].colName == columns[i].colName
      && r[i].dataLength == columns[i].dataLength
      && r[i].typeId == columns[i].dataType.id
      && r[i].typeName == columns[i].dataType.name
    decreases |columns|
  {
    if |columns| == 0 then []
    else
      var c := columns[|columns| - 1];
      Describe(columns[..|columns| - 1]) + [ColumnDescriptor(c.colName, c.dataLength, c.dataType.id, c.dataType.name)]
  }

  /** Cell `i` is the last cell of the row that carries its column name. */
  predicate LastWithName(cells: seq<Cell>, i: int)
    requires 0 <= i < |cells|
  {
    forall j :: i < j < |cells| ==> cells[j].metadata.colName != cells[i].metadata.colName
  }

  /** The set of column names that occur in a row event. */
  function Names(cells: seq<Cell>): set<string> {
    set i | 0 <= i < |cells| :: cells[i].metadata.colName
  }

  /** The one column name that `row[name] = value` does not turn into a key of the row:
      on a plain object that assignment goes through the prototype's `__proto__` setter. */
  const ProtoKey := "__proto__"

  /** The object built from a row event, cell by cell, as `row[colName] = value` does. */
  function BuildRow(cells: seq<Cell>): RowObject
    decreases |cells|
  {
    if |cells| == 0 then map[]
    else
      var c := cells[|cells| - 1];
      var before := BuildRow(cells[..|cells| - 1]);
      if c.metadata.colName == ProtoKey then before else before[c.metadata.colName := c.value]
  }

  /** A built row has one key per column name of the event other than `__proto__`. */
  lemma {:induction false} BuildRowKeys(cells: seq<Cell>)
    ensures BuildRow(cells).Keys == Names(cells) - {ProtoKey}
    decreases |cells|
  {
    if |cells| > 0 {
      BuildRowKeys(cells[..|cells| - 1]);
      NamesSnoc(cells);
    }
  }

  /** The cell that is last with its name (other than `__proto__`) gives that key its value. */
  lemma {:induction false} BuildRowLastCellWins(cells: seq<Cell>, i: nat)
    requires i < |cells| && LastWithName(cells, i) && cells[i].metadata.colName != ProtoKey
    ensures cells[i].metadata.colName in BuildRow(cells)
    ensures BuildRow(cells)[cells[i].metadata.colName] == cells[i].value
    decreases |cells|
  {
    var n := |cells| - 1;
    if i < n {
      var prefix := cells[..n];
      assert prefix[i] == cells[i];
      assert cells[n].metadata.colName != cells[i].metadata.colName;
      assert LastWithName(prefix, i);
      BuildRowLastCellWins(prefix, i);
    }
  }

  /** A built row has one key per column name of the event other than `__proto__`, and when
      a name repeats, the value of the last cell with that name wins. */
  lemma BuildRowLastWins(cells: seq<Cell>)
    ensures BuildRow(cells).Keys == Names(cells) - {ProtoKey}
    ensures forall i :: 0 <= i < |cells| && LastWithName(cells, i) && cells[i].metadata.colName != ProtoKey ==>
      cells[i].metadata.colName in BuildRow(cells) && BuildRow(cells)[cells[i].metadata.colName] == cells[i].value
  {
    BuildRowKeys(cells);
    forall i | 0 <= i < |cells| && LastWithName(cells, i) && cells[i].metadata.colName != ProtoKey
      ensures cells[i].metadata.colName in BuildRow(cells) && BuildRow(cells)[cells[i].metadata.colName] == cells[i].value
    {
      BuildRowLastCellWins(cells, i);
    }
  }

  /** The names of a row event are those of all but its last cell, plus the last cell's. */
  lemma NamesSnoc(cells: seq<Cell>)
    requires |cells| > 0
    ensures Names(cells) == Names(cells[..|cells| - 1]) + {cells[|cells| - 1].metadata.colName}
  {
    var prefix := cells[..|cells| - 1];
    forall i | 0 <= i < |prefix|
      ensures prefix[i] == cells[i]
    {
    }
  }

  /** Every column name of a row event has a last cell carrying it; as the keys of
      `BuildRow(cells)` are those names (without `__proto__`), every value of the built row
      is, by `BuildRowLastWins`, the value of the last cell with its name. */
  lemma {:induction false} EveryKeyHasLastCell(cells: seq<Cell>, name: string)
    requires name in Names(cells)
    ensures exists i :: 0 <= i < |cells| && cells[i].metadata.colName == name && LastWithName(cells, i)
    decreases |cells|
  {
    var n := |cells| - 1;
    var prefix := cells[..n];
    NamesSnoc(cells);
    if cells[n].metadata.colName == name {
      assert LastWithName(cells, n);
    } else {
      assert name in Names(prefix);
      EveryKeyHasLastCell(prefix, name);
      var i :| 0 <= i < |prefix| && prefix[i].metadata.colName == name && LastWithName(prefix, i);
      assert cells[i] == prefix[i];
      assert LastWithName(cells, i);
    }
  }
}
