/**
 * The two table operations of onboarding: the outer merge of the universe
 * snapshot into the ticker map on `bloomberg_ticker`, and pandas'
 * `DataFrame.update(other, overwrite=False)`, which writes a candidate's
 * values only into null cells of rows and columns the frame already has.
 */
module MergeFill {
  import opened Wrappers
  import opened Frames

  /**
   * Outer merge on the key: every key of either side gets a row, every column
   * of either side is kept, and a cell a side does not supply is null.
   * The two sides' non-key columns are disjoint.
   */
  function OuterMerge(left: Frame, right: Frame): (r: Frame)
    requires WellFormed(left) && WellFormed(right)
    requires left.columns !! right.columns
    ensures WellFormed(r)
    ensures r.columns == left.columns + right.columns
    ensures r.rows.Keys == left.rows.Keys + right.rows.Keys
    ensures forall k, c :: c in left.columns ==> CellAt(r, k, c) == CellAt(left, k, c)
    ensures forall k, c :: c in right.columns ==> CellAt(r, k, c) == CellAt(right, k, c)
  {
    var columns := left.columns + right.columns;
    Frame(columns, map k | k in left.rows.Keys + right.rows.Keys ::
      map c | c in columns :: if c in left.columns then CellAt(left, k, c) else CellAt(right, k, c))
  }

  /**
   * `update(other, overwrite=False)`: `other` is aligned to this frame's keys and
   * columns; a null cell takes the aligned candidate cell, a non-null cell stays.
   */
  function FillMissing(f: Frame, other: Frame): (r: Frame)
    requires WellFormed(f)
    ensures WellFormed(r)
    ensures r.columns == f.columns && r.rows.Keys == f.rows.Keys
    ensures forall k, c :: CellAt(f, k, c).Some? ==> CellAt(r, k, c) == CellAt(f, k, c)
    ensures forall k, c :: CellAt(r, k, c) != CellAt(f, k, c) ==>
      k in f.rows && c in f.columns && CellAt(f, k, c).None? && CellAt(r, k, c) == CellAt(other, k, c)
    ensures forall k, c :: k in f.rows && c in f.columns && CellAt(f, k, c).None? ==>
      CellAt(r, k, c) == CellAt(other, k, c)
  {
    Frame(f.columns, map k | k in f.rows ::
      map c | c in f.columns :: if f.rows[k][c].Some? then f.rows[k][c] else CellAt(other, k, c))
  }

  /** Two frames are equal when they agree on columns, keys and every cell. */
  lemma FrameExtensionality(f: Frame, g: Frame)
    requires WellFormed(f) && WellFormed(g)
    requires f.columns == g.columns && f.rows.Keys == g.rows.Keys
    requires forall k, c :: CellAt(f, k, c) == CellAt(g, k, c)
    ensures f == g
  {
    forall k | k in f.rows ensures f.rows[k] == g.rows[k] {
      forall c | c in f.columns ensures f.rows[k][c] == g.rows[k][c] {
        assert CellAt(f, k, c) == CellAt(g, k, c);
      }
    }
  }

  /** Filling twice from the same candidate changes nothing the second time. */
  lemma FillMissingIdempotent(f: Frame, other: Frame)
    requires WellFormed(f)
    ensures FillMissing(FillMissing(f, other), other) == FillMissing(f, other)
  {
    var once := FillMissing(f, other);
    var twice := FillMissing(once, other);
    forall k, c ensures CellAt(twice, k, c) == CellAt(once, k, c) {
      if CellAt(once, k, c).None? && k in once.rows && c in once.columns {
        assert CellAt(f, k, c).None?;
      }
    }
    FrameExtensionality(twice, once);
  }

  /** Filling from a candidate with no non-null cell for the frame leaves it as it is. */
  lemma FillFromNothingIsIdentity(f: Frame, other: Frame)
    requires WellFormed(f)
    requires forall k, c :: k in f.rows && c in f.columns ==> CellAt(other, k, c).None?
    ensures FillMissing(f, other) == f
  {
    var r := FillMissing(f, other);
    forall k, c ensures CellAt(r, k, c) == CellAt(f, k, c) {
    }
    FrameExtensionality(r, f);
  }

  /**
   * Onboarding (merge, then fill) keeps every known row and every non-null
   * known cell, and gives every snapshot key a row.
   */
  lemma OnboardingKeepsKnownData(m: Frame, snapshot: Frame, candidate: Frame)
    requires WellFormed(m) && WellFormed(snapshot) && m.columns !! snapshot.columns
    ensures var r := FillMissing(OuterMerge(m, snapshot), candidate);
      && m.rows.Keys + snapshot.rows.Keys == r.rows.Keys
      && m.columns + snapshot.columns == r.columns
      && forall k, c :: CellAt(m, k, c).Some? ==> CellAt(r, k, c) == CellAt(m, k, c)
  {
  }
}
