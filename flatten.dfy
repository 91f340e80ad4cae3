/**
 * `flatten_date`: reshapes the long table, one row per (Symbol, Date)
 * observation, into the wide table, one row per symbol. Each row gets its
 * position within its symbol (`groupby('Symbol').cumcount()`), the table is
 * keyed by (Symbol, position) and unstacked, and column (c, p) is renamed
 * `Start c` for position 0 and `End c` for any other position.
 */
module FlattenDate {
  import opened Frames

  /** The rows of one symbol, in their original relative order (one group of `groupby('Symbol')`). */
  function RowsOf(rows: seq<Row<Obs>>, s: string): seq<Row<Obs>> {
    if rows == [] then []
    else (if rows[0].key.symbol == s then [rows[0]] else []) + RowsOf(rows[1..], s)
  }

  /** The group of a concatenation is the concatenation of the groups. */
  lemma {:induction false} RowsOfAppend(a: seq<Row<Obs>>, b: seq<Row<Obs>>, s: string)
    ensures RowsOf(a + b, s) == RowsOf(a, s) + RowsOf(b, s)
  {
    if a == [] {
      assert a + b == b;
    } else {
      assert (a + b)[0] == a[0];
      assert (a + b)[1..] == a[1..] + b;
      RowsOfAppend(a[1..], b, s);
    }
  }

  // ------------------------------------------------------------ numbering

  /** A row after `set_index(['Symbol', cumcount])`: its symbol, its position within the symbol, and the row. */
  datatype Entry = Entry(symbol: string, position: nat, row: Row<Obs>)

  /** How many rows of symbol `s` the running counters have seen. */
  function Seen(counts: map<string, nat>, s: string): nat {
    if s in counts then counts[s] else 0
  }

  /**
   * `groupby('Symbol').cumcount()` paired with the rows: one running counter
   * per symbol, starting from `counts`.
   */
  function Number(rows: seq<Row<Obs>>, counts: map<string, nat>): seq<Entry> {
    if rows == [] then []
    else
      var s := rows[0].key.symbol;
      var n := Seen(counts, s);
      [Entry(s, n, rows[0])] + Number(rows[1..], counts[s := n + 1])
  }

  /**
   * `set_index(['Symbol', cumcount])`: the long table keyed by (Symbol,
   * position), counted with every counter at zero. There is one entry per row,
   * in order, and each row's position is the number of earlier rows with the
   * same symbol.
   */
  function SetIndex(rows: seq<Row<Obs>>): (es: seq<Entry>)
    ensures |es| == |rows|
    ensures forall i :: 0 <= i < |rows| ==> es[i].row == rows[i] && es[i].symbol == rows[i].key.symbol
    ensures forall i :: 0 <= i < |rows| ==> es[i].position == |RowsOf(rows[..i], rows[i].key.symbol)|
  {
    NumberFromZero(rows);
    Number(rows, map[])
  }

  /** Numbering from zero counters: each row keeps its place and gets the count of earlier rows of its symbol. */
  lemma NumberFromZero(rows: seq<Row<Obs>>)
    ensures |Number(rows, map[])| == |rows|
    ensures forall i :: 0 <= i < |rows| ==>
      Number(rows, map[])[i].row == rows[i] && Number(rows, map[])[i].symbol == rows[i].key.symbol
    ensures forall i :: 0 <= i < |rows| ==> Number(rows, map[])[i].position == |RowsOf(rows[..i], rows[i].key.symbol)|
  {
    NumberLength(rows, map[]);
    forall i | 0 <= i < |rows|
      ensures Number(rows, map[])[i].row == rows[i] && Number(rows, map[])[i].symbol == rows[i].key.symbol
      ensures Number(rows, map[])[i].position == |RowsOf(rows[..i], rows[i].key.symbol)|
    {
      NumberAt(rows, map[], i);
      NumberCounts(rows, map[], i);
    }
  }

  /** Numbering keeps the rows, one entry per row in the same order, keyed by the row's own symbol. */
  lemma {:induction false} NumberAt(rows: seq<Row<Obs>>, counts: map<string, nat>, i: nat)
    requires i < |rows|
    ensures var es := Number(rows, counts);
      |es| == |rows| && es[i].row == rows[i] && es[i].symbol == rows[i].key.symbol
  {
    NumberLength(rows, counts);
    if i > 0 {
      var s := rows[0].key.symbol;
      NumberAt(rows[1..], counts[s := Seen(counts, s) + 1], i - 1);
    }
  }

  /** Numbering gives one entry per row. */
  lemma {:induction false} NumberLength(rows: seq<Row<Obs>>, counts: map<string, nat>)
    ensures |Number(rows, counts)| == |rows|
  {
    if rows != [] {
      var s := rows[0].key.symbol;
      NumberLength(rows[1..], counts[s := Seen(counts, s) + 1]);
    }
  }

  /** A row's position is the number of rows of its symbol before it, on top of the starting counter. */
  lemma {:induction false} NumberCounts(rows: seq<Row<Obs>>, counts: map<string, nat>, i: nat)
    requires i < |rows|
    ensures |Number(rows, counts)| == |rows|
    ensures Number(rows, counts)[i].position
         == Seen(counts, rows[i].key.symbol) + |RowsOf(rows[..i], rows[i].key.symbol)|
  {
    NumberLength(rows, counts);
    var s0 := rows[0].key.symbol;
    var n0 := Seen(counts, s0);
    if i == 0 {
      assert rows[..0] == [];
    } else {
      var s := rows[i].key.symbol;
      NumberCounts(rows[1..], counts[s0 := n0 + 1], i - 1);
      assert rows[1..][i - 1] == rows[i];
      assert rows[..i] == [rows[0]] + rows[1..][..i - 1];
      RowsOfAppend([rows[0]], rows[1..][..i - 1], s);
    }
  }

  /**
   * The rows of one symbol are numbered 0, 1, 2, ... in their original
   * order: the row at position p is the p-th row of its group.
   */
  lemma PositionInGroup(rows: seq<Row<Obs>>, i: nat)
    requires i < |rows|
    ensures |SetIndex(rows)| == |rows|
    ensures var g := RowsOf(rows, rows[i].key.symbol);
      SetIndex(rows)[i].position < |g| && g[SetIndex(rows)[i].position] == rows[i]
  {
    var s := rows[i].key.symbol;
    assert rows == rows[..i] + ([rows[i]] + rows[i + 1..]);
    RowsOfAppend(rows[..i], [rows[i]] + rows[i + 1..], s);
    RowsOfAppend([rows[i]], rows[i + 1..], s);
    assert RowsOf([rows[i]], s) == [rows[i]] by {
      assert [rows[i]][1..] == [];
    }
  }

  /** Of two rows of the same symbol, the earlier one has the smaller position. */
  lemma PositionsInOrder(rows: seq<Row<Obs>>, i: nat, j: nat)
    requires i < j < |rows| && rows[i].key.symbol == rows[j].key.symbol
    ensures |SetIndex(rows)| == |rows|
    ensures SetIndex(rows)[i].position < SetIndex(rows)[j].position
  {
    var s := rows[i].key.symbol;
    assert rows[..j] == rows[..i] + ([rows[i]] + rows[i + 1..j]);
    RowsOfAppend(rows[..i], [rows[i]] + rows[i + 1..j], s);
    RowsOfAppend([rows[i]], rows[i + 1..j], s);
    assert RowsOf([rows[i]], s) == [rows[i]] by {
      assert [rows[i]][1..] == [];
    }
  }

  /** The row keyed (s, p), if there is one (the first, were there several). */
  function Lookup(es: seq<Entry>, s: string, p: nat): Option<Row<Obs>> {
    if es == [] then None
    else if es[0].symbol == s && es[0].position == p then Some(es[0].row)
    else Lookup(es[1..], s, p)
  }

  /** A key that is found belongs to some entry of the table. */
  lemma {:induction false} LookupFound(es: seq<Entry>, s: string, p: nat) returns (i: nat)
    requires Lookup(es, s, p).Some?
    ensures i < |es| && es[i].symbol == s && es[i].position == p && es[i].row == Lookup(es, s, p).value
  {
    if es[0].symbol == s && es[0].position == p {
      i := 0;
    } else {
      var i' := LookupFound(es[1..], s, p);
      i := i' + 1;
    }
  }

  /** Looking a key up in a table with one more entry in front: that entry, if it carries the key, or else the rest. */
  lemma LookupCons(e: Entry, es: seq<Entry>, s: string, p: nat)
    ensures Lookup([e] + es, s, p) == if e.symbol == s && e.position == p then Some(e.row) else Lookup(es, s, p)
  {
  }

  /** Numbered from `counts`, the key (s, p) holds the (p - start)-th row of the symbol, and nothing past its last. */
  lemma {:induction false} LookupNumber(rows: seq<Row<Obs>>, counts: map<string, nat>, s: string, p: nat)
    ensures var g := RowsOf(rows, s);
            var base := Seen(counts, s);
      Lookup(Number(rows, counts), s, p) == if base <= p < base + |g| then Some(g[p - base]) else None
  {
    if rows != [] {
      var s0 := rows[0].key.symbol;
      var n0 := Seen(counts, s0);
      var counts' := counts[s0 := n0 + 1];
      var rest := Number(rows[1..], counts');
      assert Number(rows, counts) == [Entry(s0, n0, rows[0])] + rest;
      LookupCons(Entry(s0, n0, rows[0]), rest, s, p);
      LookupNumber(rows[1..], counts', s, p);
      var g' := RowsOf(rows[1..], s);
      if s0 == s {
        assert Seen(counts', s) == n0 + 1;
        assert RowsOf(rows, s) == [rows[0]] + g';
      } else {
        assert Seen(counts', s) == Seen(counts, s);
        assert RowsOf(rows, s) == g';
      }
    }
  }

  /** Key (s, p) of the keyed long table holds the p-th row of symbol s, for exactly the positions p below the group's size. */
  lemma LookupSetIndex(rows: seq<Row<Obs>>, s: string, p: nat)
    ensures var g := RowsOf(rows, s);
      Lookup(SetIndex(rows), s, p) == if p < |g| then Some(g[p]) else None
  {
    LookupNumber(rows, map[], s, p);
  }


  // -------------------------------------------------------------- unstack

  /** The number of positions the unstacked columns range over: one more than the largest position. */
  function Width(es: seq<Entry>): nat {
    if es == [] then 0
    else
      var rest := Width(es[1..]);
      if es[0].position + 1 >= rest then es[0].position + 1 else rest
  }

  /** Every position lies below the width, and the largest one reaches it. */
  lemma {:induction false} WidthBounds(es: seq<Entry>)
    ensures forall i :: 0 <= i < |es| ==> es[i].position < Width(es)
    ensures es != [] ==> exists i :: 0 <= i < |es| && es[i].position + 1 == Width(es)
    ensures es == [] ==> Width(es) == 0
  {
    if es != [] {
      WidthBounds(es[1..]);
      forall i | 1 <= i < |es| ensures es[i].position < Width(es) {
        assert es[i] == es[1..][i - 1];
      }
      if es[0].position + 1 < Width(es[1..]) {
        var i :| 0 <= i < |es[1..]| && es[1..][i].position + 1 == Width(es[1..]);
        assert es[i + 1].position + 1 == Width(es);
      }
    }
  }

  /** The distinct symbols of the keyed table, in order of first appearance (the unstacked index). */
  function Symbols(es: seq<Entry>): seq<string> {
    if es == [] then []
    else
      var rest := Symbols(es[..|es| - 1]);
      var s := es[|es| - 1].symbol;
      if s in rest then rest else rest + [s]
  }

  /** The unstacked index lists every symbol of the table once, and nothing else. */
  lemma {:induction false} SymbolsSpec(es: seq<Entry>)
    ensures Distinct(Symbols(es))
    ensures forall i :: 0 <= i < |es| ==> es[i].symbol in Symbols(es)
    ensures forall s :: s in Symbols(es) ==> exists i :: 0 <= i < |es| && es[i].symbol == s
  {
    if es != [] {
      var init := es[..|es| - 1];
      SymbolsSpec(init);
      forall i | 0 <= i < |es| - 1 ensures es[i].symbol in Symbols(es) {
        assert es[i] == init[i];
      }
      forall s | s in Symbols(es) ensures exists i :: 0 <= i < |es| && es[i].symbol == s {
        if s in Symbols(init) {
          var i :| 0 <= i < |init| && init[i].symbol == s;
          assert es[i].symbol == s;
        } else {
          assert es[|es| - 1].symbol == s;
        }
      }
    }
  }

  /**
   * The unstacked column labels as (column index, position) pairs: every
   * column in order, and within a column every position below `w` in order.
   */
  function Labels(n: nat, w: nat): seq<(nat, nat)> {
    if n == 0 then [] else Labels(n - 1, w) + seq(w, p => (n - 1, p))
  }

  /** Every label names an existing column and a position below the width. */
  lemma {:induction false} LabelsBounds(n: nat, w: nat)
    ensures forall x :: 0 <= x < |Labels(n, w)| ==> Labels(n, w)[x].0 < n && Labels(n, w)[x].1 < w
  {
    if n > 0 {
      LabelsBounds(n - 1, w);
    }
  }

  /** Label `a` comes before label `b`: by column first, then by position. */
  predicate LabelBefore(a: (nat, nat), b: (nat, nat)) {
    a.0 < b.0 || (a.0 == b.0 && a.1 < b.1)
  }

  /**
   * The labels are every (column, position) pair below (n, w), each once,
   * ordered by column and then by position.
   */
  lemma {:induction false} LabelsOrder(n: nat, w: nat)
    ensures forall j: nat, p: nat :: j < n && p < w ==> (j, p) in Labels(n, w)
    ensures forall x, y :: 0 <= x < y < |Labels(n, w)| ==> LabelBefore(Labels(n, w)[x], Labels(n, w)[y])
  {
    if n > 0 {
      LabelsOrder(n - 1, w);
      LabelsBounds(n - 1, w);
      var ls := Labels(n, w);
      var prev := Labels(n - 1, w);
      assert |ls| == |prev| + w;
      forall j: nat, p: nat | j < n && p < w ensures (j, p) in ls {
        if j == n - 1 {
          assert ls[|prev| + p] == (j, p);
        } else {
          assert (j, p) in prev;
        }
      }
      forall x, y | 0 <= x < y < |ls| ensures LabelBefore(ls[x], ls[y]) {
        if y < |prev| {
          assert ls[x] == prev[x] && ls[y] == prev[y];
        } else if x < |prev| {
          assert ls[x] == prev[x] && ls[y] == (n - 1, y - |prev|);
        } else {
          assert ls[x] == (n - 1, x - |prev|) && ls[y] == (n - 1, y - |prev|);
        }
      }
    }
  }

  /** With two positions, column j's labels stand at 2j and 2j + 1. */
  lemma {:induction false} LabelsTwo(n: nat, j: nat, p: nat)
    requires j < n && p < 2
    ensures |Labels(n, 2)| == 2 * n && Labels(n, 2)[2 * j + p] == (j, p)
  {
    LabelsTwoLength(n);
    if j < n - 1 {
      LabelsTwo(n - 1, j, p);
    }
  }

  lemma {:induction false} LabelsTwoLength(n: nat)
    ensures |Labels(n, 2)| == 2 * n
  {
    if n > 0 {
      LabelsTwoLength(n - 1);
    }
  }

  /** The cell that column `j` at position `p` holds for symbol `s`: that observation's cell, or Missing when the symbol has fewer rows. */
  function Pick(es: seq<Entry>, s: string, j: nat, p: nat): Cell {
    match Lookup(es, s, p)
    case Some(row) => CellAt(row, j)
    case None => Missing
  }

  /** The unstacked table: column labels are (column name, position) pairs, ordered by column and then by position. */
  datatype Wide = Wide(columns: seq<(string, nat)>, rows: seq<Row<string>>)

  /**
   * `unstack()` of the table keyed by (Symbol, position): one row per symbol
   * of the table, no symbol twice, one cell per column in every row, and
   * every column labelled by an original column and a position below the width.
   */
  function Unstack(columns: seq<string>, es: seq<Entry>): (w: Wide)
    ensures forall k :: 0 <= k < |w.rows| ==> |w.rows[k].cells| == |w.columns|
    ensures UniqueKeys(w.rows)
    ensures forall x :: 0 <= x < |w.columns| ==> w.columns[x].0 in columns && w.columns[x].1 < Width(es)
  {
    var ls := Labels(|columns|, Width(es));
    var syms := Symbols(es);
    LabelsBounds(|columns|, Width(es));
    SymbolsSpec(es);
    Wide(
      seq(|ls|, x requires 0 <= x < |ls| => (columns[ls[x].0], ls[x].1)),
      seq(|syms|, k requires 0 <= k < |syms| =>
        Row(syms[k], seq(|ls|, x requires 0 <= x < |ls| => Pick(es, syms[k], ls[x].0, ls[x].1)))))
  }

  /** Reads a column name back into the original column and whether it is the start position. */
  function ParseColumnName(name: string): Option<(string, bool)> {
    if |name| >= 6 && name[..6] == "Start " then Some((name[6..], true))
    else if |name| >= 4 && name[..4] == "End " then Some((name[4..], false))
    else None
  }

  /**
   * The new name of the unstacked column (c, p): `Start c` for position 0,
   * `End c` for any other. The name tells which column it came from and
   * whether it was position 0.
   */
  function ColumnName(c: string, p: nat): (name: string)
    ensures ParseColumnName(name) == Some((c, p == 0))
  {
    if p == 0 then
      assert ("Start " + c)[..6] == "Start " && ("Start " + c)[6..] == c;
      "Start " + c
    else
      assert ("End " + c)[0] == 'E' && ("End " + c)[..4] == "End " && ("End " + c)[4..] == c;
      "End " + c
  }

  /** `df.columns = [...]`: every (c, p) label becomes `ColumnName(c, p)`. */
  function Rename(w: Wide): (r: Frame<string>)
    ensures r.rows == w.rows && |r.columns| == |w.columns|
    ensures forall x :: 0 <= x < |r.columns| ==> ParseColumnName(r.columns[x]) == Some((w.columns[x].0, w.columns[x].1 == 0))
  {
    Frame(seq(|w.columns|, x requires 0 <= x < |w.columns| => ColumnName(w.columns[x].0, w.columns[x].1)), w.rows)
  }

  /**
   * `flatten_date`: the wide table. It has one cell per column in every row,
   * no symbol twice, and every column named `Start c` or `End c` after a
   * column c of the input.
   */
  function Flatten(f: Frame<Obs>): (out: Frame<string>)
    ensures WellFormed(out)
    ensures UniqueKeys(out.rows)
    ensures forall x :: 0 <= x < |out.columns| ==>
      ParseColumnName(out.columns[x]).Some? && ParseColumnName(out.columns[x]).value.0 in f.columns
  {
    Rename(Unstack(f.columns, SetIndex(f.rows)))
  }

  /**
   * `flatten_date` with its error path. `reset_index` first inserts the index
   * levels as columns at the front, `Date` and then `Symbol`, and fails on the
   * first one the table already has as a column. Otherwise the stage returns
   * the reshaped table.
   */
  function FlattenStage(f: Frame<Obs>): (r: Result<Frame<string>>)
    ensures r.Err? <==> "Date" in f.columns || "Symbol" in f.columns
    ensures r.Err? ==> r.error == ColumnExists(if "Date" in f.columns then "Date" else "Symbol")
    ensures r.Ok? ==> r.value == Flatten(f)
  {
    if "Date" in f.columns then Err(ColumnExists("Date"))
    else if "Symbol" in f.columns then Err(ColumnExists("Symbol"))
    else Ok(Flatten(f))
  }

  // ------------------------------------------------------------ properties

  /** The flattened table has a row for every symbol of the input, and no row for a symbol without observations. */
  lemma FlattenOneRowPerSymbol(f: Frame<Obs>)
    ensures forall i :: 0 <= i < |f.rows| ==>
      exists k :: 0 <= k < |Flatten(f).rows| && Flatten(f).rows[k].key == f.rows[i].key.symbol
    ensures forall k :: 0 <= k < |Flatten(f).rows| ==> RowsOf(f.rows, Flatten(f).rows[k].key) != []
  {
    var es := SetIndex(f.rows);
    var syms := Symbols(es);
    var out := Flatten(f);
    SymbolsSpec(es);
    assert |out.rows| == |syms|;
    forall i | 0 <= i < |f.rows| ensures exists k :: 0 <= k < |out.rows| && out.rows[k].key == f.rows[i].key.symbol {
      assert es[i].symbol in syms;
      var k :| 0 <= k < |syms| && syms[k] == es[i].symbol;
      assert out.rows[k].key == f.rows[i].key.symbol;
    }
    forall k | 0 <= k < |out.rows| ensures RowsOf(f.rows, out.rows[k].key) != [] {
      assert out.rows[k].key == syms[k] && syms[k] in syms;
      var i :| 0 <= i < |es| && es[i].symbol == syms[k];
      PositionInGroup(f.rows, i);
    }
  }

  /** A member of a group is a row of the table, with the group's symbol. */
  lemma {:induction false} RowsOfMember(rows: seq<Row<Obs>>, s: string, r: Row<Obs>) returns (i: nat)
    requires r in RowsOf(rows, s)
    ensures i < |rows| && rows[i] == r && r.key.symbol == s
  {
    if rows[0].key.symbol == s && rows[0] == r {
      i := 0;
    } else {
      assert r in RowsOf(rows[1..], s);
      var i' := RowsOfMember(rows[1..], s, r);
      i := i' + 1;
    }
  }

  /** The largest group decides the width: no symbol has more rows, and some symbol has that many. */
  lemma WidthIsLargestGroup(f: Frame<Obs>)
    ensures var w := Width(SetIndex(f.rows));
      && (forall i :: 0 <= i < |f.rows| ==> |RowsOf(f.rows, f.rows[i].key.symbol)| <= w)
      && (f.rows != [] ==> exists i :: 0 <= i < |f.rows| && |RowsOf(f.rows, f.rows[i].key.symbol)| == w)
  {
    var es := SetIndex(f.rows);
    var w := Width(es);
    WidthBounds(es);
    NumberLength(f.rows, map[]);
    forall i | 0 <= i < |f.rows| ensures |RowsOf(f.rows, f.rows[i].key.symbol)| <= w {
      var s := f.rows[i].key.symbol;
      var g := RowsOf(f.rows, s);
      PositionInGroup(f.rows, i);
      LookupSetIndex(f.rows, s, |g| - 1);
      var m := LookupFound(es, s, |g| - 1);
    }
    if f.rows != [] {
      var i :| 0 <= i < |es| && es[i].position + 1 == w;
      NumberAt(f.rows, map[], i);
      PositionInGroup(f.rows, i);
      var s := f.rows[i].key.symbol;
      var g := RowsOf(f.rows, s);
      assert |g| <= w;
    }
  }

  /**
   * The naming rule and the cells: column x of the flattened table carries
   * label (j, p), column j at position p; it is named `Start c` for p = 0 and
   * `End c` otherwise, and holds the p-th observation of the row's symbol in
   * column j, or Missing when the symbol has fewer rows.
   */
  lemma FlattenCell(f: Frame<Obs>, k: nat, x: nat)
    requires k < |Flatten(f).rows| && x < |Flatten(f).columns|
    ensures var ls := Labels(|f.columns|, Width(SetIndex(f.rows)));
            var out := Flatten(f);
            var g := RowsOf(f.rows, out.rows[k].key);
      && |out.columns| == |ls| && |out.rows[k].cells| == |ls|
      && ls[x].0 < |f.columns|
      && out.columns[x] == (if ls[x].1 == 0 then "Start " else "End ") + f.columns[ls[x].0]
      && out.rows[k].cells[x] == (if ls[x].1 < |g| then CellAt(g[ls[x].1], ls[x].0) else Missing)
  {
    var ls := Labels(|f.columns|, Width(SetIndex(f.rows)));
    LabelsBounds(|f.columns|, Width(SetIndex(f.rows)));
    LookupSetIndex(f.rows, Flatten(f).rows[k].key, ls[x].1);
  }

  /** Every symbol has exactly two observations. */
  predicate TwoPerSymbol(rows: seq<Row<Obs>>) {
    forall i :: 0 <= i < |rows| ==> |RowsOf(rows, rows[i].key.symbol)| == 2
  }

  /**
   * With exactly two observations per symbol, each column c becomes
   * `Start c` holding the symbol's first observation and, right after it,
   * `End c` holding its second.
   */
  lemma FlattenTwoObservations(f: Frame<Obs>, k: nat, j: nat)
    requires TwoPerSymbol(f.rows)
    requires k < |Flatten(f).rows| && j < |f.columns|
    ensures var out := Flatten(f);
            var g := RowsOf(f.rows, out.rows[k].key);
      && |g| == 2
      && |out.columns| == 2 * |f.columns| && |out.rows[k].cells| == 2 * |f.columns|
      && out.columns[2 * j] == "Start " + f.columns[j] && out.columns[2 * j + 1] == "End " + f.columns[j]
      && out.rows[k].cells[2 * j] == CellAt(g[0], j) && out.rows[k].cells[2 * j + 1] == CellAt(g[1], j)
  {
    var out := Flatten(f);
    FlattenOneRowPerSymbol(f);
    var s := out.rows[k].key;
    assert RowsOf(f.rows, s) != [];
    var r := RowsOf(f.rows, s)[0];
    var i := RowsOfMember(f.rows, s, r);
    WidthIsLargestGroup(f);
    assert Width(SetIndex(f.rows)) == 2;
    LabelsTwo(|f.columns|, j, 0);
    LabelsTwo(|f.columns|, j, 1);
    FlattenCell(f, k, 2 * j);
    FlattenCell(f, k, 2 * j + 1);
  }

  /**
   * The trimmed table, two closes per symbol, flattens to the columns
   * `Start Close` and `End Close`: each symbol's first and second close.
   */
  lemma FlattenCloses(f: Frame<Obs>, k: nat)
    requires f.columns == ["Close"] && TwoPerSymbol(f.rows)
    requires k < |Flatten(f).rows|
    ensures var out := Flatten(f);
            var g := RowsOf(f.rows, out.rows[k].key);
      && |g| == 2
      && out.columns == ["Start Close", "End Close"]
      && out.rows[k].cells == [CellAt(g[0], 0), CellAt(g[1], 0)]
  {
    FlattenTwoObservations(f, k, 0);
    var out := Flatten(f);
    assert "Start " + "Close" == "Start Close";
    assert "End " + "Close" == "End Close";
    assert out.columns == [out.columns[0], out.columns[1]];
    assert out.rows[k].cells == [out.rows[k].cells[0], out.rows[k].cells[1]];
  }
}
