/**
 * The duplicate detector: pandas' `duplicated(subset=column, keep=False)`
 * flags every row whose value in `column` occurs on more than one row.
 * Null cells compare equal to each other, as pandas treats NaN here.
 */
module Duplicates {
  import opened Wrappers
  import opened Frames

  /** The legacy ticker column the detector looks at. */
  const TickerColumn: string := "ticker"

  /** The keys of all rows holding value `v` in `column`. */
  function Group(f: Frame, column: string, v: Cell): (g: set<string>)
    ensures g <= f.rows.Keys
  {
    set k | k in f.rows && CellAt(f, k, column) == v
  }

  /** Rows whose value in `column` occurs at least twice (keep=False marks every occurrence). */
  function DuplicatedOn(f: Frame, column: string): (r: set<string>)
    ensures r <= f.rows.Keys
    ensures forall k :: k in r ==> |Group(f, column, CellAt(f, k, column))| >= 2
  {
    set k | k in f.rows && |Group(f, column, CellAt(f, k, column))| >= 2
  }

  /**
   * The detector on the ticker map. An empty frame has no duplicates whatever its
   * columns; otherwise a frame without a ticker column gives `None` (pandas raises KeyError).
   */
  function FindDuplicates(f: Frame): (r: Option<set<string>>)
    ensures r.None? <==> TickerColumn !in f.columns && f.rows != map[]
    ensures r.Some? ==> r.value <= f.rows.Keys
    ensures f.rows == map[] ==> r == Some({})
  {
    if f.rows == map[] then Some({})
    else if TickerColumn in f.columns then Some(DuplicatedOn(f, TickerColumn))
    else None
  }

  lemma SubsetCardinality(a: set<string>, b: set<string>)
    requires a <= b
    ensures |a| <= |b|
  {
    assert b == a + (b - a);
  }

  /** A key is flagged exactly when some other row holds the same value. */
  lemma DuplicatedIffShared(f: Frame, column: string, k: string)
    ensures k in DuplicatedOn(f, column) <==>
      k in f.rows && exists k2 :: k2 in f.rows && k2 != k && CellAt(f, k2, column) == CellAt(f, k, column)
  {
    var g := Group(f, column, CellAt(f, k, column));
    if k in f.rows {
      if |g| >= 2 {
        if forall k2 :: k2 in g ==> k2 == k {
          SubsetCardinality(g, {k});
          assert false;
        }
      }
      if k2 :| k2 in f.rows && k2 != k && CellAt(f, k2, column) == CellAt(f, k, column) {
        assert {k, k2} <= g;
        SubsetCardinality({k, k2}, g);
      }
    }
  }

  /** A row whose value no other row shares is never flagged. */
  lemma UniqueValueNotFlagged(f: Frame, column: string, k: string)
    requires k in f.rows
    requires forall k2 :: k2 in f.rows && k2 != k ==> CellAt(f, k2, column) != CellAt(f, k, column)
    ensures k !in DuplicatedOn(f, column)
  {
    DuplicatedIffShared(f, column, k);
  }

  /** Flagging is closed under equal values: every row sharing a flagged row's value is flagged too. */
  lemma FlaggedGroupComplete(f: Frame, column: string, k: string, k2: string)
    requires k in DuplicatedOn(f, column)
    requires k2 in f.rows && CellAt(f, k2, column) == CellAt(f, k, column)
    ensures k2 in DuplicatedOn(f, column)
  {
  }

  /** A non-empty result never holds a single key. */
  lemma DuplicatesComeInPairs(f: Frame, column: string)
    ensures |DuplicatedOn(f, column)| != 1
  {
    var r := DuplicatedOn(f, column);
    if |r| == 1 {
      var k :| k in r;
      DuplicatedIffShared(f, column, k);
      var k2 :| k2 in f.rows && k2 != k && CellAt(f, k2, column) == CellAt(f, k, column);
      FlaggedGroupComplete(f, column, k, k2);
      assert {k, k2} <= r;
      SubsetCardinality({k, k2}, r);
    }
  }

  /** Rows A and B share ticker X, row C has ticker Y: exactly A and B are flagged. */
  lemma SharedTickerExample()
    ensures var f := Frame({TickerColumn}, map[
        "A" := map[TickerColumn := Some("X")],
        "B" := map[TickerColumn := Some("X")],
        "C" := map[TickerColumn := Some("Y")]]);
      FindDuplicates(f) == Some({"A", "B"})
  {
    var f := Frame({TickerColumn}, map[
        "A" := map[TickerColumn := Some("X")],
        "B" := map[TickerColumn := Some("X")],
        "C" := map[TickerColumn := Some("Y")]]);
    DuplicatedIffShared(f, TickerColumn, "A");
    DuplicatedIffShared(f, TickerColumn, "B");
    DuplicatedIffShared(f, TickerColumn, "C");
    assert CellAt(f, "B", TickerColumn) == CellAt(f, "A", TickerColumn);
    assert "A" in DuplicatedOn(f, TickerColumn) && "B" in DuplicatedOn(f, TickerColumn);
    assert forall k2 :: k2 in f.rows && k2 != "C" ==> CellAt(f, k2, TickerColumn) == Some("X");
    assert "C" !in DuplicatedOn(f, TickerColumn);
    assert DuplicatedOn(f, TickerColumn) == {"A", "B"};
  }
}
