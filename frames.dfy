/** The tabular data model shared by the quality checks and the scoring step:
    cell values, rows keyed by dotted column names, the errors the pipeline
    raises, and a data frame whose columns are assigned in place. */
module Frames {

  datatype Option<+T> = None | Some(value: T)

  /** The exceptions the pipeline can raise, one constructor per cause. */
  datatype Error =
    | MissingColumns(names: set<string>)  // a column lookup on a name outside the schema
    | UnparseableDate(column: string)     // a value of the column cannot be read as a date
    | NotConvertible(column: string)      // a value of the column cannot be cast to an integer
    | MissingKey(key: string)             // a dictionary lookup or pop on an absent key
    | NotADict                            // a dictionary operation on a list or a scalar

  datatype Result<+T> = Ok(value: T) | Err(error: Error)

  datatype Outcome = Pass | Fail(error: Error)

  /** A scalar that a cell can hold. `Instant` is a parsed date, as an offset on a
      fixed time line. */
  datatype Value = Str(s: string) | Num(n: int) | Bool(b: bool) | Instant(t: int)

  /** A cell: `None` is a missing value (null, NaN or NaT). */
  type Cell = Option<Value>

  /** A row maps column names to cells. */
  type Row = map<string, Cell>

  /** The cell of `row` in `column`; a row without that column reads as missing. */
  function CellOf(row: Row, column: string): Cell
  {
    if column in row then row[column] else None
  }

  /** The column `column` of a batch, top to bottom. */
  function Column(rows: seq<Row>, column: string): (c: seq<Cell>)
    ensures |c| == |rows|
    ensures forall i :: 0 <= i < |rows| ==> c[i] == CellOf(rows[i], column)
  {
    seq(|rows|, i requires 0 <= i < |rows| => CellOf(rows[i], column))
  }

  /** The batch after `df[column] = values`: row i gets `values[i]` in `column`. */
  function SetColumn(rows: seq<Row>, column: string, values: seq<Cell>): (r: seq<Row>)
    requires |values| == |rows|
    ensures |r| == |rows|
    ensures forall i :: 0 <= i < |rows| ==> r[i] == rows[i][column := values[i]]
    ensures forall i :: 0 <= i < |rows| ==>
              && r[i].Keys == rows[i].Keys + {column}
              && CellOf(r[i], column) == values[i]
              && forall k :: k in rows[i] && k != column ==> r[i][k] == rows[i][k]
  {
    seq(|rows|, i requires 0 <= i < |rows| => rows[i][column := values[i]])
  }

  /** The cells holding the booleans `flags`. */
  function BoolCells(flags: seq<bool>): (c: seq<Cell>)
    ensures |c| == |flags|
    ensures forall i :: 0 <= i < |flags| ==> c[i] == Some(Bool(flags[i]))
  {
    seq(|flags|, i requires 0 <= i < |flags| => Some(Bool(flags[i])))
  }

  /** Assigning a column leaves every other column of every row as it was. */
  lemma SetColumnKeepsOthers(rows: seq<Row>, column: string, values: seq<Cell>, other: string)
    requires |values| == |rows| && other != column
    ensures Column(SetColumn(rows, column, values), other) == Column(rows, other)
  {
  }

  /** Assigning a column and reading it back gives the assigned values. */
  lemma SetColumnReadBack(rows: seq<Row>, column: string, values: seq<Cell>)
    requires |values| == |rows|
    ensures Column(SetColumn(rows, column, values), column) == values
  {
  }

  /** A data frame: a schema (the set of column names) and its rows in order. */
  class Frame {
    var schema: set<string>
    var rows: seq<Row>

    /** Every row has exactly the columns of the schema. */
    ghost predicate Valid()
      reads this
    {
      forall i :: 0 <= i < |rows| ==> rows[i].Keys == schema
    }

    /** In a valid frame a column of the schema is stored in every row, and a
        column outside the schema reads as missing in every row. */
    lemma CellsFollowSchema(i: int, column: string)
      requires Valid() && 0 <= i < |rows|
      ensures column in schema ==> column in rows[i] && CellOf(rows[i], column) == rows[i][column]
      ensures column !in schema ==> CellOf(rows[i], column) == None
    {
    }

    constructor (schema: set<string>, rows: seq<Row>)
      requires forall i :: 0 <= i < |rows| ==> rows[i].Keys == schema
      ensures Valid()
      ensures this.schema == schema && this.rows == rows
    {
      this.schema := schema;
      this.rows := rows;
    }

    /** `df[column] = values`: adds the column, or overwrites it if it exists. */
    method Assign(column: string, values: seq<Cell>)
      requires Valid() && |values| == |rows|
      modifies this
      ensures Valid()
      ensures schema == old(schema) + {column}
      ensures rows == SetColumn(old(rows), column, values)
    {
      rows := SetColumn(rows, column, values);
      schema := schema + {column};
    }
  }
}
