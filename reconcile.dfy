/**
 * One run of the ticker-map updater, without its I/O: the loaded ticker map,
 * the universe snapshot, the blacklist file's text and the vendor candidate
 * mapping come in as values; what would be pushed and uploaded comes out.
 */
module Reconcile {
  import opened Wrappers
  import opened Frames
  import opened Duplicates
  import opened Universe
  import opened Lines
  import opened MergeFill

  /** The universe snapshot: its keys in file order (for the export) and its table (for the merge). */
  datatype Snapshot = Snapshot(order: seq<string>, table: Frame)

  predicate ValidSnapshot(s: Snapshot)
  {
    WellFormed(s.table) && s.table.rows.Keys == Elements(s.order)
  }

  /** Why a run stops before pushing or uploading anything. */
  datatype Failure =
    | MissingTickerColumn                          // `duplicated(subset="ticker")` raises KeyError
    | DuplicateAlertUnavailable(keys: set<string>) // the duplicate alert names a module never imported

  /** The end of a run: the map handed to the store (if any) and the universe text uploaded. */
  datatype Outcome =
    | Aborted(failure: Failure)
    | Completed(pushed: Option<Frame>, universe: string)

  /** The in-memory ticker map, rebound by the merge and then updated in place. */
  class TickerMap {
    var columns: set<string>
    var rows: map<string, Record>

    ghost predicate Valid()
      reads this
    {
      WellFormed(Value())
    }

    function Value(): Frame
      reads this
    {
      Frame(columns, rows)
    }

    constructor (f: Frame)
      requires WellFormed(f)
      ensures Valid() && Value() == f
    {
      columns := f.columns;
      rows := f.rows;
    }

    /** `ticker_map = ticker_map.merge(snapshot, how="outer", on="bloomberg_ticker")`. */
    method MergeOuter(snapshot: Frame)
      requires Valid() && WellFormed(snapshot) && columns !! snapshot.columns
      modifies this
      ensures Valid() && Value() == OuterMerge(old(Value()), snapshot)
    {
      var merged := OuterMerge(Value(), snapshot);
      columns, rows := merged.columns, merged.rows;
    }

    /** `ticker_map.update(candidate, overwrite=False)`. */
    method Update(candidate: Frame)
      requires Valid()
      modifies this
      ensures Valid() && Value() == FillMissing(old(Value()), candidate)
    {
      var filled := FillMissing(Value(), candidate);
      rows := filled.rows;
    }
  }

  /**
   * A run: detect duplicate legacy tickers, diff the blacklist-filtered snapshot
   * against the known keys, onboard (merge, fill, push) only when something is
   * new, then export the whole snapshot key list.
   */
  method RunUpdate(stored: Frame, snapshot: Snapshot, blacklistText: string, candidate: Frame)
    returns (outcome: Outcome)
    requires WellFormed(stored) && ValidSnapshot(snapshot)
    requires FindDuplicates(stored) == Some({})
      && NewTickers(Elements(snapshot.order), ParseBlacklist(blacklistText), stored.rows.Keys) != {}
      ==> stored.columns !! snapshot.table.columns
    ensures FindDuplicates(stored).None? ==> outcome == Aborted(MissingTickerColumn)
    ensures FindDuplicates(stored).Some? && FindDuplicates(stored).value != {} ==>
      outcome == Aborted(DuplicateAlertUnavailable(FindDuplicates(stored).value))
    ensures FindDuplicates(stored) == Some({}) ==>
      && outcome.Completed?
      && outcome.universe == JoinLines(snapshot.order)
      && var onboard := NewTickers(Elements(snapshot.order), ParseBlacklist(blacklistText), stored.rows.Keys);
         && (onboard == {} ==> outcome.pushed == None)
         && (onboard != {} ==> outcome.pushed == Some(FillMissing(OuterMerge(stored, snapshot.table), candidate)))
  {
    var duplicated := FindDuplicates(stored);
    if duplicated.None? {
      return Aborted(MissingTickerColumn);
    }
    if duplicated.value != {} {
      return Aborted(DuplicateAlertUnavailable(duplicated.value));
    }
    var tickerMap := new TickerMap(stored);
    var known := tickerMap.rows.Keys;
    var blacklisted := ParseBlacklist(blacklistText);
    var newTickers := NewTickers(Elements(snapshot.order), blacklisted, known);
    var pushed := None;
    if newTickers != {} {
      tickerMap.MergeOuter(snapshot.table);
      tickerMap.Update(candidate);
      pushed := Some(tickerMap.Value());
    }
    var universe := ExportUniverse(snapshot.order);
    outcome := Completed(pushed, universe);
  }

  /** After onboarding, every eligible snapshot key is known, so an immediate second run pushes nothing. */
  lemma SecondRunOnboardsNothing(stored: Frame, snapshot: Snapshot, blacklist: set<string>, candidate: Frame)
    requires WellFormed(stored) && ValidSnapshot(snapshot)
    requires stored.columns !! snapshot.table.columns
    ensures NewTickers(Elements(snapshot.order), blacklist,
      FillMissing(OuterMerge(stored, snapshot.table), candidate).rows.Keys) == {}
  {
  }

  /**
   * Two runs in a row against the same snapshot, blacklist and candidate, the
   * second starting from whatever the first pushed: the second run pushes nothing.
   */
  method RerunAfterOnboarding(stored: Frame, snapshot: Snapshot, blacklistText: string, candidate: Frame)
    returns (first: Outcome, second: Outcome)
    requires WellFormed(stored) && ValidSnapshot(snapshot)
    requires FindDuplicates(stored) == Some({})
      && NewTickers(Elements(snapshot.order), ParseBlacklist(blacklistText), stored.rows.Keys) != {}
      ==> stored.columns !! snapshot.table.columns
    ensures second.Aborted? || second.pushed == None
    ensures second.Completed? ==> second.universe == JoinLines(snapshot.order)
    ensures !(first.Completed? && first.pushed.Some?) ==> second == first
  {
    first := RunUpdate(stored, snapshot, blacklistText, candidate);
    var reloaded := if first.Completed? && first.pushed.Some? then first.pushed.value else stored;
    if first.Completed? && first.pushed.Some? {
      SecondRunOnboardsNothing(stored, snapshot, ParseBlacklist(blacklistText), candidate);
    }
    second := RunUpdate(reloaded, snapshot, blacklistText, candidate);
  }
}
