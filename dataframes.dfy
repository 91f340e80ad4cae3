/**
 * The stages that work on a DataFrame object rather than on a table value:
 * `startPipeline`, which copies the caller's frame, and `add_percent_change`,
 * which writes a new column into the frame it is given.
 */
module DataFrames {
  import opened Frames

  /** A DataFrame object: its column names and its rows, which column assignment updates in place. */
  class DataFrame<L> {
    var columns: seq<string>
    var rows: seq<Row<L>>

    /** The table the object currently holds. */
    function Value(): Frame<L>
      reads this
    {
      Frame(columns, rows)
    }

    /** A new frame holding the given table. */
    constructor (f: Frame<L>)
      ensures Value() == f
    {
      columns := f.columns;
      rows := f.rows;
    }

    /**
     * `df[name] = values`: every column of that name takes the values, or a
     * new column is appended at the end when there is none.
     */
    method SetColumn(name: string, values: seq<Cell>)
      requires WellFormed(Value()) && |values| == |rows|
      modifies this
      ensures Value() == WithColumn(old(Value()), name, values)
    {
      var cs, rs := columns, rows;
      if name in cs {
        rows := seq(|rs|, i requires 0 <= i < |rs| => Row(rs[i].key, Assigned(cs, rs[i].cells, name, values[i])));
      } else {
        columns := cs + [name];
        rows := seq(|rs|, i requires 0 <= i < |rs| => Row(rs[i].key, rs[i].cells + [values[i]]));
      }
    }
  }

  /** A row's cells after `name` is assigned `v`: every column of that name holds `v`, the others keep their cell. */
  function Assigned(columns: seq<string>, cells: seq<Cell>, name: string, v: Cell): (r: seq<Cell>)
    ensures |r| == |cells|
  {
    seq(|cells|, j requires 0 <= j < |cells| => if j < |columns| && columns[j] == name then v else cells[j])
  }

  /**
   * The table after `f[name] = values`. When the name exists, every column
   * carrying it takes the values, as pandas broadcasts a series over all
   * columns of a duplicated label; when it does not, the values become a new
   * last column. The rows keep their count, order and keys, and every other
   * cell is kept.
   */
  function WithColumn<L>(f: Frame<L>, name: string, values: seq<Cell>): (g: Frame<L>)
    requires WellFormed(f) && |values| == |f.rows|
    ensures WellFormed(g) && |g.rows| == |f.rows|
    ensures g.columns == if name in f.columns then f.columns else f.columns + [name]
    ensures forall i :: 0 <= i < |f.rows| ==> g.rows[i].key == f.rows[i].key
    ensures forall i, j :: 0 <= i < |f.rows| && 0 <= j < |f.columns| ==>
      g.rows[i].cells[j] == if f.columns[j] == name then values[i] else f.rows[i].cells[j]
    ensures name !in f.columns ==> forall i :: 0 <= i < |f.rows| ==> g.rows[i].cells[|f.columns|] == values[i]
  {
    if name in f.columns then
      Frame(f.columns, seq(|f.rows|, i requires 0 <= i < |f.rows| => Row(f.rows[i].key, Assigned(f.columns, f.rows[i].cells, name, values[i]))))
    else
      Frame(f.columns + [name], seq(|f.rows|, i requires 0 <= i < |f.rows| => Row(f.rows[i].key, f.rows[i].cells + [values[i]])))
  }

  /**
   * Assigning a column keeps the row count, the row keys and every other
   * column's cells; afterwards the column reads back as `values`. A new name
   * adds exactly one column, at the end; an existing one adds none.
   */
  lemma WithColumnSpec<L>(f: Frame<L>, name: string, values: seq<Cell>, i: nat, other: string)
    requires WellFormed(f) && |values| == |f.rows| && i < |f.rows|
    requires other != name
    ensures var g := WithColumn(f, name, values);
      && WellFormed(g)
      && |g.rows| == |f.rows| && g.rows[i].key == f.rows[i].key
      && g.columns == (if name in f.columns then f.columns else f.columns + [name])
      && Get(g.columns, g.rows[i], name) == values[i]
      && Get(g.columns, g.rows[i], other) == Get(f.columns, f.rows[i], other)
  {
    if name !in f.columns {
      FindAppended(f.columns, name, name);
      FindAppended(f.columns, name, other);
    }
  }

  /** Appending a name leaves the lookup of every other name as it was, and finds the new one last. */
  lemma {:induction false} FindAppended(columns: seq<string>, name: string, c: string)
    requires name !in columns
    ensures Find(columns + [name], c) == if c == name then Some(|columns|) else Find(columns, c)
  {
    if columns != [] {
      assert (columns + [name])[1..] == columns[1..] + [name];
      FindAppended(columns[1..], name, c);
    } else {
      assert (columns + [name])[1..] == [];
    }
  }

  // ------------------------------------------------------- startPipeline

  /** `startPipeline`: `df.copy()`, a new frame with the same columns and rows. */
  method StartPipeline<L>(df: DataFrame<L>) returns (copy: DataFrame<L>)
    ensures fresh(copy) && copy.Value() == df.Value()
  {
    copy := new DataFrame(df.Value());
  }

  /**
   * Writing a column into the copy, as `add_percent_change` does, leaves the
   * caller's frame as it was.
   */
  method StartPipelineIsolates<L>(df: DataFrame<L>, name: string, values: seq<Cell>) returns (copy: DataFrame<L>)
    requires WellFormed(df.Value()) && |values| == |df.rows|
    ensures fresh(copy) && copy != df
    ensures df.Value() == old(df.Value())
    ensures copy.Value() == WithColumn(df.Value(), name, values)
  {
    copy := StartPipeline(df);
    copy.SetColumn(name, values);
  }

  // -------------------------------------------------- add_percent_change

  /**
   * `(end - start) / start * 100` on one row; a missing operand gives a
   * missing result. A zero start is excluded (the source divides by it).
   * The change is defined exactly when both closes are, and it recovers the
   * end close from the start close: end = start * (1 + change / 100).
   */
  function PercentChange(start: Cell, end: Cell): (change: Cell)
    requires start != Value(0.0)
    ensures change.Value? <==> start.Value? && end.Value?
    ensures change.Value? ==> start.x * (1.0 + change.x / 100.0) == end.x
  {
    if start.Value? && end.Value? then Value((end.x - start.x) / start.x * 100.0) else Missing
  }

  /** With a positive start close, the change is positive exactly when the close rose. */
  lemma PercentChangeSign(start: Cell, end: Cell)
    requires start != Value(0.0)
    ensures PercentChange(start, end).Value? && start.x > 0.0 ==>
      (PercentChange(start, end).x > 0.0 <==> end.x > start.x)
  {
  }

  /** A close of 100 followed by one of 150 is a 50 percent change. */
  lemma PercentChangeExample()
    ensures PercentChange(Value(100.0), Value(150.0)) == Value(50.0)
  {
  }

  /** No row of the table has a `Start Close` of zero. */
  predicate NonZeroStarts<L>(f: Frame<L>) {
    forall i :: 0 <= i < |f.rows| ==> Get(f.columns, f.rows[i], "Start Close") != Value(0.0)
  }

  /**
   * The `Percent Change` column: one cell per row, defined exactly where the
   * row has both closes, and then taking `Start Close` to `End Close`.
   */
  function PercentChanges<L>(f: Frame<L>): (changes: seq<Cell>)
    requires NonZeroStarts(f)
    ensures |changes| == |f.rows|
    ensures forall i :: 0 <= i < |f.rows| ==>
      (changes[i].Value? <==> Get(f.columns, f.rows[i], "Start Close").Value? && Get(f.columns, f.rows[i], "End Close").Value?)
    ensures forall i :: 0 <= i < |f.rows| && changes[i].Value? ==>
      Get(f.columns, f.rows[i], "Start Close").x * (1.0 + changes[i].x / 100.0) == Get(f.columns, f.rows[i], "End Close").x
  {
    seq(|f.rows|, i requires 0 <= i < |f.rows| =>
      PercentChange(Get(f.columns, f.rows[i], "Start Close"), Get(f.columns, f.rows[i], "End Close")))
  }

  /**
   * After the column is written, every row's `Percent Change` is its change
   * from `Start Close` to `End Close`, while its `Start Close` and
   * `End Close` stay as they were.
   */
  lemma PercentChangeColumn<L>(f: Frame<L>, i: nat)
    requires WellFormed(f) && NonZeroStarts(f) && i < |f.rows|
    ensures var g := WithColumn(f, "Percent Change", PercentChanges(f));
      && |g.rows| == |f.rows| && g.rows[i].key == f.rows[i].key
      && g.columns == (if "Percent Change" in f.columns then f.columns else f.columns + ["Percent Change"])
      && Get(g.columns, g.rows[i], "Start Close") == Get(f.columns, f.rows[i], "Start Close")
      && Get(g.columns, g.rows[i], "End Close") == Get(f.columns, f.rows[i], "End Close")
      && Get(g.columns, g.rows[i], "Percent Change")
         == PercentChange(Get(g.columns, g.rows[i], "Start Close"), Get(g.columns, g.rows[i], "End Close"))
  {
  }

  /**
   * `add_percent_change`: reads `End Close` and then `Start Close`, failing
   * on the first one missing with the frame untouched; otherwise writes the
   * `Percent Change` column into the frame it was given and returns that frame.
   */
  method AddPercentChange<L>(df: DataFrame<L>) returns (r: Result<DataFrame<L>>)
    requires WellFormed(df.Value()) && NonZeroStarts(df.Value())
    requires Occurs(df.columns, "Start Close") <= 1 && Occurs(df.columns, "End Close") <= 1
    modifies df
    ensures r.Err? <==> "End Close" !in old(df.columns) || "Start Close" !in old(df.columns)
    ensures r.Err? ==> df.Value() == old(df.Value())
    ensures r.Err? ==> r.error == MissingColumn(if "End Close" !in old(df.columns) then "End Close" else "Start Close")
    ensures r.Ok? ==> r.value == df
    ensures r.Ok? ==> df.Value() == WithColumn(old(df.Value()), "Percent Change", PercentChanges(old(df.Value())))
  {
    if "End Close" !in df.columns {
      return Err(MissingColumn("End Close"));
    }
    if "Start Close" !in df.columns {
      return Err(MissingColumn("Start Close"));
    }
    df.SetColumn("Percent Change", PercentChanges(df.Value()));
    r := Ok(df);
  }
}
