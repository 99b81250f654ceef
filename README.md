# Ticker-map reconciliation, modelled in Dafny

The updater keeps a persisted ticker map. It is a table keyed by `bloomberg_ticker`, with a legacy
`ticker` column and other reference columns. A run takes five steps:

1. Look for rows that share a legacy ticker.
2. Compare the latest Numerai universe snapshot, minus a blacklist, with the keys the map already knows.
3. If any ticker is new: outer-merge the snapshot into the map, backfill null cells from a vendor
   candidate mapping with fill-if-missing semantics, and push the map.
4. Write the full list of snapshot keys, one per line, as a text artifact.
5. Upload that artifact.

This project models the in-memory logic of that run (`main.py`) over plain values.

- `Frames`: a `Frame` is a column set and a map from key to record (column to cell). A cell is
  `Option<string>`; `None` stands for a pandas NaN. `WellFormed` says every row has exactly the
  frame's columns. `CellAt` reads a cell and gives null outside the table, as pandas does after a reindex.
- `Duplicates`: `duplicated(subset="ticker", keep=False)`. A value occurring on two or more rows flags
  all of them, and null tickers compare equal to each other.
- `Universe`: `(latest - blacklist) - known`.
- `Lines`: Python's `str.splitlines`, which splits on all of Python's line boundaries and treats
  `"\r\n"` as one. It also holds the newline-joined export and the export loop writing into a text buffer.
- `MergeFill`: the outer merge on the key, and `DataFrame.update(other, overwrite=False)`.
- `Reconcile`: the in-memory ticker map is a class that the merge and the update change. `RunUpdate`
  is one run, taking the loaded map, the snapshot, the blacklist text and the candidate mapping as inputs.

Two points about what `main.py` does as written:

- The duplicate alert at `main.py:33` goes through a name `utils` that is never imported. So any
  duplicate stops the run there, and nothing is pushed or uploaded. `RunUpdate` returns
  `Aborted(DuplicateAlertUnavailable(keys))` in that case.
- The only fill is the single `update` with the vendor candidate mapping. `main.py` has no further
  enrichment passes and no re-keying to another ticker scheme.

## Model

| member | source | states |
|---|---|---|
| `Duplicates.DuplicatedOn` | main.py:31 | only keys of the map are flagged, and every flagged key's ticker value occurs on at least two rows |
| `Duplicates.FindDuplicates` | main.py:31 | an empty map has no duplicates, whatever its columns; a non-empty map without a `ticker` column makes the detector fail, and otherwise it returns a set of the map's keys |
| `Duplicates.DuplicatedIffShared` | main.py:31 | a key is flagged if and only if it is a row and some other row has the same ticker value (null equals null) |
| `Duplicates.UniqueValueNotFlagged` | main.py:31 | a row whose ticker no other row shares is never flagged |
| `Duplicates.FlaggedGroupComplete` | main.py:31 | keep=False: when one row of a group of equal tickers is flagged, every row of the group is flagged |
| `Duplicates.DuplicatesComeInPairs` | main.py:31 | the flagged set never holds exactly one key, so a non-empty result has at least two keys |
| `Duplicates.SharedTickerExample` | main.py:31 | rows A and B with ticker X and row C with ticker Y: exactly {A, B} is reported |
| `Universe.NewTickers` | main.py:49-53 | a key is new exactly when it is in the snapshot, not blacklisted and not already in the map |
| `Universe.NothingNewIffCovered` | main.py:53-54 | onboarding is skipped exactly when every non-blacklisted snapshot key is already known |
| `Universe.NewTickersAntitone` | main.py:36-53 | knowing more keys never makes more tickers new |
| `Universe.BlacklistExample` | main.py:49-53 | snapshot {AAPL, MSFT, ZZZZ}, blacklist {ZZZZ}, known {AAPL}: the new set is {MSFT}, and the blacklisted ZZZZ is never in it |
| `Lines.LineEnd` | main.py:42 | the position where the first line ends: no line boundary before it, and a boundary at it unless it is the end of the text |
| `Lines.SplitLines` | main.py:42 | every line produced contains no line boundary character |
| `Lines.ParseBlacklist` | main.py:41-42 | every blacklist entry is a single line of the file's text |
| `Lines.JoinLinesSnoc` | main.py:69-70 | writing one more key appends exactly that key and a newline to the export |
| `Lines.SplitJoinRoundTrip` | main.py:68-70 | splitting the exported text into lines gives back the snapshot key sequence, order and repeats included, when no key contains a line boundary |
| `Lines.JoinSplitRoundTrip` | main.py:42 | text whose only line boundary is `\n` and which is empty or ends in a newline is rebuilt exactly from its lines |
| `Lines.ExportThenParse` | main.py:42 | reading the exported universe text as a blacklist file yields exactly the set of exported keys |
| `Lines.TextBuffer.constructor` | main.py:68 | a new buffer is empty |
| `Lines.TextBuffer.Write` | main.py:70 | a write appends its text at the end of the buffer and changes nothing else |
| `Lines.ExportUniverse` | main.py:68-70 | the exported text is each snapshot key followed by a newline, in snapshot order, with blacklisted keys included |
| `MergeFill.OuterMerge` | main.py:62-64 | the result is well formed; its keys are the union of both sides' keys and its columns the union of both sides' columns; the map's cells are kept; snapshot cells are taken; cells neither side supplies are null |
| `MergeFill.FillMissing` | main.py:65 | no rows and no columns are added, so candidate-only keys stay out; a non-null cell is never changed; every changed cell was null and took the candidate's value for the same key and column; every null cell takes the candidate's cell, which stays null when the candidate has none |
| `MergeFill.FillMissingIdempotent` | main.py:65 | filling a second time from the same candidate changes nothing |
| `MergeFill.FillFromNothingIsIdentity` | main.py:65 | a candidate without non-null values for the map's keys and columns leaves the map unchanged |
| `MergeFill.OnboardingKeepsKnownData` | main.py:62-65 | after the merge and the fill, every previously known key and every snapshot key is present, the columns are the union of both sides' columns, and every non-null known cell is unchanged |
| `Reconcile.TickerMap.constructor` | main.py:28 | the in-memory map starts as the loaded map |
| `Reconcile.TickerMap.MergeOuter` | main.py:62-64 | the map is rebound to the outer merge of its old value with the snapshot |
| `Reconcile.TickerMap.Update` | main.py:65 | the map becomes its old value filled from the candidate, in place |
| `Reconcile.RunUpdate` | main.py:28-70 | a missing ticker column in a non-empty map, or any duplicate, aborts the run. An empty map aborts for neither reason. Otherwise the run completes and the universe text is the full snapshot export. The map is pushed exactly when some non-blacklisted snapshot key is unknown, and the pushed value is the merged-then-filled map; when nothing is new, nothing is pushed |
| `Reconcile.SecondRunOnboardsNothing` | main.py:49-65 | after onboarding, no non-blacklisted snapshot key is new for the merged-then-filled map |
| `Reconcile.RerunAfterOnboarding` | main.py:49-66 | a second run on the pushed map (or on the same map, if nothing was pushed) with the same snapshot, blacklist and candidate pushes nothing. If it completes, it exports the same universe text. When the first run pushed nothing, the second run ends the same way |

## Left out

- The HTTP entry point and its decorator, and the script entry (`main.py:23-24`, `main.py:80-81`).
- The Slack client and secret lookup (`main.py:25`): foreign calls. The duplicate alert itself is not
  modelled either (`main.py:33`). Only its effect as written is modelled: the run stops.
- Loading and pushing the map (`main.py:28`, `main.py:66`): persistence. The loaded map is an input.
  The pushed map is the `pushed` field of the outcome.
- Downloading the universe CSV (`main.py:37-39`, `main.py:45-47`): network I/O. The code downloads it
  twice and uses the second copy. The model takes one snapshot for both uses.
- Opening the blacklist file (`main.py:41`): file I/O. The input is the text as read. The newline
  translation done by Python's text-mode reader happens before this point and is not modelled.
- `eod_mapper.build_map()` (`main.py:61`): its source is not part of this model. Its result is an
  arbitrary candidate frame.
- The cloud storage upload and logging (`main.py:72-76`): I/O. The uploaded text is the `universe`
  field of the outcome.
- OuterMerge: requires the two sides' non-key columns to be disjoint. pandas would instead keep both
  copies of a shared column under `_x`/`_y` suffixes, and that renaming is not modelled.
- RunUpdate: requires the loaded map's and the snapshot's non-key columns to be disjoint on runs that
  merge, that is, when there are no duplicates and some ticker is new. The reason is that the `_x`/`_y`
  renaming of shared columns is not modelled (see OuterMerge). Runs that do not merge have no such requirement.
- A snapshot CSV that repeats a `bloomberg_ticker`: the export keeps every repeat. The merge table
  holds one row per key, while pandas would produce one row per repeat.
- pandas row order, index and dtype details, and how a non-string index value (NaN) is formatted
  in the export. Keys are modelled as strings.
- Exceptions raised by pandas or the collaborators other than the missing `ticker` column.
