/**
 * Tables as values: the DataFrames that the price pipeline hands from stage
 * to stage, as column names, row labels and cells.
 */
module Frames {

  /** One cell. `Missing` stands for the missing value a DataFrame holds as NaN. */
  datatype Cell = Missing | Value(x: real)

  /** A row: its index key and its cells, one per column, in column order. */
  datatype Row<L> = Row(key: L, cells: seq<Cell>)

  /** A DataFrame as a value: its column names and its rows, in order. */
  datatype Frame<L> = Frame(columns: seq<string>, rows: seq<Row<L>>)

  /** The index label of an observation row of the long table: the (Symbol, Date) pair. */
  datatype Obs = Obs(symbol: string, date: int)

  /**
   * The errors the stages raise: a column they read is not there (a KeyError),
   * or a column they insert is already there (a ValueError).
   */
  datatype Error = MissingColumn(name: string) | ColumnExists(name: string)

  datatype Result<T> = Ok(value: T) | Err(error: Error)

  datatype Option<T> = None | Some(value: T)

  /** Every row has exactly one cell per column. */
  predicate WellFormed<L>(f: Frame<L>) {
    forall i :: 0 <= i < |f.rows| ==> |f.rows[i].cells| == |f.columns|
  }

  /** No element occurs twice. */
  predicate Distinct<T(==)>(s: seq<T>) {
    forall a, b :: 0 <= a < b < |s| ==> s[a] != s[b]
  }

  /** Index keys are unique: no two rows share one. */
  predicate UniqueKeys<L(==)>(rows: seq<Row<L>>) {
    forall a, b :: 0 <= a < b < |rows| ==> rows[a].key != rows[b].key
  }

  /** The number of columns that carry the given name. */
  function Occurs(columns: seq<string>, name: string): nat {
    if columns == [] then 0
    else (if columns[0] == name then 1 else 0) + Occurs(columns[1..], name)
  }

  /** The position of the first column with the given name, if there is one. */
  function Find(columns: seq<string>, name: string): (r: Option<nat>)
    ensures r.None? <==> name !in columns
    ensures r.Some? ==> r.value < |columns| && columns[r.value] == name
    ensures r.Some? ==> forall k :: 0 <= k < r.value ==> columns[k] != name
  {
    if columns == [] then None
    else if columns[0] == name then Some(0)
    else match Find(columns[1..], name)
      case None => None
      case Some(k) => Some(k + 1)
  }

  /** The cell of a row in column position `j`; Missing past the row's end. */
  function CellAt<L>(row: Row<L>, j: nat): Cell {
    if j < |row.cells| then row.cells[j] else Missing
  }

  /** `df[name]` read at one row: the row's cell in the column of that name. */
  function Get<L>(columns: seq<string>, row: Row<L>, name: string): Cell {
    match Find(columns, name)
    case Some(j) => CellAt(row, j)
    case None => Missing
  }

  /** A name that occurs at most once is found exactly where it stands. */
  lemma {:induction false} FindOnly(columns: seq<string>, name: string, j: nat)
    requires Occurs(columns, name) <= 1
    requires j < |columns| && columns[j] == name
    ensures Find(columns, name) == Some(j)
  {
    if j > 0 {
      assert columns[0] != name by {
        if columns[0] == name {
          OccursAt(columns[1..], name, j - 1);
        }
      }
      FindOnly(columns[1..], name, j - 1);
    }
  }

  /** A name that stands nowhere occurs zero times. */
  lemma {:induction false} OccursAbsent(columns: seq<string>, name: string)
    requires name !in columns
    ensures Occurs(columns, name) == 0
  {
    if columns != [] {
      OccursAbsent(columns[1..], name);
    }
  }

  /** A name standing at some position occurs at least once. */
  lemma {:induction false} OccursAt(columns: seq<string>, name: string, j: nat)
    requires j < |columns| && columns[j] == name
    ensures Occurs(columns, name) >= 1
  {
    if j > 0 {
      OccursAt(columns[1..], name, j - 1);
    }
  }
}
