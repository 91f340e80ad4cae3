/**
 * How the reshaping and the derived column fit together: the trimmed table,
 * two closes per symbol, flattened and given its `Percent Change` column.
 */
module Pipeline {
  import opened Frames
  import opened FlattenDate
  import opened DataFrames

  /**
   * After `flatten_date` and `add_percent_change`, each symbol's row holds
   * `Start Close`, `End Close` and `Percent Change`, the last being the change
   * from the symbol's first close to its second.
   */
  lemma FlattenedPercentChange(f: Frame<Obs>, k: nat)
    requires f.columns == ["Close"] && TwoPerSymbol(f.rows)
    requires k < |Flatten(f).rows|
    requires NonZeroStarts(Flatten(f))
    ensures FlattenStage(f) == Ok(Flatten(f)) && WellFormed(Flatten(f))
    ensures var out := Flatten(f);
            var g := RowsOf(f.rows, out.rows[k].key);
            var res := WithColumn(out, "Percent Change", PercentChanges(out));
      && |g| == 2
      && res.columns == ["Start Close", "End Close", "Percent Change"]
      && |res.rows| == |out.rows| && res.rows[k].key == out.rows[k].key
      && Get(res.columns, res.rows[k], "Start Close") == CellAt(g[0], 0)
      && Get(res.columns, res.rows[k], "End Close") == CellAt(g[1], 0)
      && Get(res.columns, res.rows[k], "Percent Change") == PercentChange(CellAt(g[0], 0), CellAt(g[1], 0))
  {
    var out := Flatten(f);
    FlattenCloses(f, k);
    var g := RowsOf(f.rows, out.rows[k].key);
    assert Find(out.columns, "Start Close") == Some(0);
    assert Find(out.columns, "End Close") == Some(1);
    assert Find(out.columns, "Percent Change") == None;
    PercentChangeColumn(out, k);
  }
}
