/**
 * The stages of the price pipeline that build a new table from the one they
 * are given: the logging decorator, `clean`, `trim` and `removeOutliers`.
 */
module Stages {
  import opened Frames

  /**
   * `log`: the decorated stage accepts every table the stage accepts and
   * returns exactly what the stage returns. The timing and the printed line are
   * observations only and are not modelled.
   */
  function Log<A(!new), B>(stage: A --> B): (wrapped: A --> B)
    ensures forall a :: stage.requires(a) ==> wrapped.requires(a) && wrapped(a) == stage(a)
  {
    a requires stage.requires(a) => stage(a)
  }

  // ---------------------------------------------------------------- clean

  /** The row records a dividend payment: its `Dividends` cell is a number above 0.0 (a missing cell is not). */
  predicate PaysDividend<L>(columns: seq<string>, row: Row<L>) {
    var d := Get(columns, row, "Dividends");
    d.Value? && d.x > 0.0
  }

  /** Some row with this index key pays a dividend. */
  predicate KeyPaysDividend<L(==,!new)>(f: Frame<L>, key: L) {
    exists r :: r in f.rows && r.key == key && PaysDividend(f.columns, r)
  }

  /** `df[df['Dividends'] > 0.0].index`: the index keys of the dividend rows. */
  function DividendKeys<L(==,!new)>(f: Frame<L>): set<L> {
    set r | r in f.rows && PaysDividend(f.columns, r) :: r.key
  }

  /** `DataFrame.drop` by index key: every row whose key is in `keys` goes, the others stay in order. */
  function Drop<L(==,!new)>(rows: seq<Row<L>>, keys: set<L>): (kept: seq<Row<L>>)
    ensures forall r :: r in kept <==> r in rows && r.key !in keys
    ensures forall r :: multiset(kept)[r] == if r.key in keys then 0 else multiset(rows)[r]
    ensures |kept| <= |rows|
  {
    if rows == [] then []
    else
      assert rows == [rows[0]] + rows[1..];
      (if rows[0].key in keys then [] else [rows[0]]) + Drop(rows[1..], keys)
  }

  /** `a` is `b` with some elements left out and the others in their order. */
  predicate IsSubsequence<T(==)>(a: seq<T>, b: seq<T>)
    decreases |b|
  {
    a == [] || (b != [] && ((a[0] == b[0] && IsSubsequence(a[1..], b[1..])) || IsSubsequence(a, b[1..])))
  }

  /**
   * `clean`: drops, by index key, every row whose key belongs to a dividend
   * row. Fails when there is no `Dividends` column.
   */
  function Clean<L(==,!new)>(f: Frame<L>): (r: Result<Frame<L>>)
    requires Occurs(f.columns, "Dividends") <= 1
    ensures r.Err? <==> "Dividends" !in f.columns
    ensures r.Err? ==> r.error == MissingColumn("Dividends")
    ensures r.Ok? ==> r.value.columns == f.columns && |r.value.rows| <= |f.rows|
    ensures r.Ok? ==> forall row :: row in r.value.rows <==> row in f.rows && !KeyPaysDividend(f, row.key)
    ensures r.Ok? ==> forall row :: multiset(r.value.rows)[row] == if KeyPaysDividend(f, row.key) then 0 else multiset(f.rows)[row]
    ensures r.Ok? ==> forall row :: row in r.value.rows ==> !PaysDividend(r.value.columns, row)
  {
    if "Dividends" !in f.columns then Err(MissingColumn("Dividends"))
    else Ok(Frame(f.columns, Drop(f.rows, DividendKeys(f))))
  }

  /** Dropping rows keeps the survivors in their original relative order. */
  lemma {:induction false} DropKeepsOrder<L(!new)>(rows: seq<Row<L>>, keys: set<L>)
    ensures IsSubsequence(Drop(rows, keys), rows)
  {
    if rows != [] {
      DropKeepsOrder(rows[1..], keys);
      var rest := Drop(rows[1..], keys);
      if rows[0].key in keys {
        assert Drop(rows, keys) == rest;
        SubsequenceOfTail(rest, rows);
      } else {
        assert Drop(rows, keys) == [rows[0]] + rest;
        assert ([rows[0]] + rest)[1..] == rest;
      }
    }
  }

  /** A subsequence of the tail is a subsequence of the whole. */
  lemma SubsequenceOfTail<T>(a: seq<T>, b: seq<T>)
    requires b != [] && IsSubsequence(a, b[1..])
    ensures IsSubsequence(a, b)
  {
  }

  /** Cleaning keeps the rows that survive in their original order, with every cell. */
  lemma CleanKeepsOrder<L(!new)>(f: Frame<L>)
    requires Occurs(f.columns, "Dividends") <= 1
    requires "Dividends" in f.columns
    ensures Clean(f).Ok? && IsSubsequence(Clean(f).value.rows, f.rows)
  {
    DropKeepsOrder(f.rows, DividendKeys(f));
  }

  /** Cleaning keeps every row with one cell per column. */
  lemma CleanWellFormed<L(!new)>(f: Frame<L>)
    requires Occurs(f.columns, "Dividends") <= 1
    requires WellFormed(f)
    ensures Clean(f).Ok? ==> WellFormed(Clean(f).value)
  {
  }

  /** The rows that pay no dividend, in order (a plain row filter). */
  function NonPayers<L>(columns: seq<string>, rows: seq<Row<L>>): seq<Row<L>> {
    if rows == [] then []
    else (if PaysDividend(columns, rows[0]) then [] else [rows[0]]) + NonPayers(columns, rows[1..])
  }

  /**
   * With unique index keys, dropping by key is the same as filtering rows:
   * the survivors are exactly the rows that pay no dividend.
   */
  lemma CleanUniqueKeys<L(!new)>(f: Frame<L>)
    requires Occurs(f.columns, "Dividends") <= 1
    requires "Dividends" in f.columns && UniqueKeys(f.rows)
    ensures Clean(f) == Ok(Frame(f.columns, NonPayers(f.columns, f.rows)))
  {
    var keys := DividendKeys(f);
    forall i | 0 <= i < |f.rows|
      ensures f.rows[i].key in keys <==> PaysDividend(f.columns, f.rows[i])
    {
      if f.rows[i].key in keys {
        var r :| r in f.rows && r.key == f.rows[i].key && PaysDividend(f.columns, r);
        var k :| 0 <= k < |f.rows| && f.rows[k] == r;
        assert k == i;
      } else {
        assert f.rows[i] in f.rows;
      }
    }
    DropFilters(f.columns, f.rows, keys);
  }

  /** Dropping the keys of exactly the dividend rows filters out those rows. */
  lemma {:induction false} DropFilters<L(!new)>(columns: seq<string>, rows: seq<Row<L>>, keys: set<L>)
    requires forall i :: 0 <= i < |rows| ==> (rows[i].key in keys <==> PaysDividend(columns, rows[i]))
    ensures Drop(rows, keys) == NonPayers(columns, rows)
  {
    if rows != [] {
      assert rows[0].key in keys <==> PaysDividend(columns, rows[0]);
      forall i | 0 <= i < |rows[1..]|
        ensures rows[1..][i].key in keys <==> PaysDividend(columns, rows[1..][i])
      {
        assert rows[1..][i] == rows[i + 1];
      }
      DropFilters(columns, rows[1..], keys);
    }
  }

  // ----------------------------------------------------------------- trim

  /** `trim`: `df[["Close"]]`, the `Close` column alone under the same index. Fails without a `Close` column. */
  function Trim<L>(f: Frame<L>): (r: Result<Frame<L>>)
    requires Occurs(f.columns, "Close") <= 1
    ensures r.Err? <==> "Close" !in f.columns
    ensures r.Err? ==> r.error == MissingColumn("Close")
    ensures r.Ok? ==> WellFormed(r.value) && r.value.columns == ["Close"] && |r.value.rows| == |f.rows|
    ensures r.Ok? ==> forall i :: 0 <= i < |f.rows| ==>
      r.value.rows[i].key == f.rows[i].key && r.value.rows[i].cells == [Get(f.columns, f.rows[i], "Close")]
  {
    match Find(f.columns, "Close")
    case None => Err(MissingColumn("Close"))
    case Some(j) => Ok(Frame(["Close"], seq(|f.rows|, i requires 0 <= i < |f.rows| => Row(f.rows[i].key, [CellAt(f.rows[i], j)]))))
  }

  /** After trimming, the `Close` cell of every row is the one it had before. */
  lemma TrimKeepsClose<L>(f: Frame<L>, i: nat)
    requires Occurs(f.columns, "Close") <= 1
    requires "Close" in f.columns && i < |f.rows|
    ensures Trim(f).Ok? && Get(Trim(f).value.columns, Trim(f).value.rows[i], "Close") == Get(f.columns, f.rows[i], "Close")
  {
  }

  // ------------------------------------------------------- removeOutliers

  /** `removeOutliers`: a placeholder stage that returns its table as it is. */
  function RemoveOutliers<L>(f: Frame<L>): Frame<L> {
    f
  }

  /** Removing outliers changes nothing, so doing it twice is the same as doing it once. */
  lemma RemoveOutliersIdempotent<L>(f: Frame<L>)
    ensures RemoveOutliers(f) == f
    ensures RemoveOutliers(RemoveOutliers(f)) == RemoveOutliers(f)
  {
  }
}
