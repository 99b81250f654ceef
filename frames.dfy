/**
 * The tabular shape of the ticker map: a set of columns and one record per
 * `bloomberg_ticker` key (the frame's index). Every record of a well-formed
 * frame has exactly the frame's columns; a cell is `None` where pandas holds NaN.
 */
module Frames {
  import opened Wrappers

  type Cell = Option<string>

  /** One row: column name to cell. */
  type Record = map<string, Cell>

  /** A keyed table: the index (`bloomberg_ticker`) maps to a record. */
  datatype Frame = Frame(columns: set<string>, rows: map<string, Record>)

  /** Every row carries exactly the frame's columns. */
  predicate WellFormed(f: Frame)
  {
    forall k :: k in f.rows ==> f.rows[k].Keys == f.columns
  }

  /** The cell at row `k`, column `c`; outside the table it reads as null, as after a reindex. */
  function CellAt(f: Frame, k: string, c: string): Cell
  {
    if k in f.rows && c in f.rows[k] then f.rows[k][c] else None
  }

  /** The set of elements of a sequence of keys. */
  function Elements(s: seq<string>): set<string>
  {
    set x | x in s
  }
}
