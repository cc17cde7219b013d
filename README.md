# hagerstrand dataprocess, modelled in Dafny

This project models the data-reshaping core of the hagerstrand package
(`hagerstrand/dataprocess.py`). That core is:

- `ExtendedDataFrame.deduplicate`, which drops duplicate rows and renumbers the index;
- `load_json_nan`, which decodes the JSON text cells of one column;
- `unpack_json`, which turns a column of dictionaries into a long frame with one row per
  (origin row, key) pair, indexed by the origin row's label, optionally carrying one passthrough column;
- `unpack_json_and_merge`, which resets the caller's index in place, unpacks, and inner-joins
  the long rows back onto the frame;
- the `jsoncol_newdf` / `jsoncol_merge` wrappers, which call the two above with their defaults.

A pandas frame is a `Table`: an ordered column list, one index label per row, and the rows as maps from
column name to cell. `WellFormed` says the frame is rectangular. Cells are a small JSON-like `Value`
type (null, integer, text, list, dictionary with its entries in order). Errors that pandas or Python
raise are `Failure` values of a `Result`.

Files:

- `tables.dfy` — frames, cells, errors, the dense index `0..n-1` and distinct-label counting.
- `seqs.dfy` — concatenation of groups (`Flatten`), used to locate long rows.
- `dedup.dfy` — `deduplicate` as a function, with its properties.
- `unpack.dfy` — `load_json_nan`, and `unpack_json` twice: as the specification function
  `UnpackJsonSpec` and as the method `UnpackJson`, whose loop appends each row's records to an
  accumulator and is proved equal to the function.
- `unpack_lemmas.dfy` — what `unpack_json` promises: the row count, the layout of the long rows,
  the default names, the passthrough column, and every error path.
- `merge.dfy` — the reset of lines 83-85 and the inner join of line 87, proved equal to a reference
  join in which every long row is widened by the origin row it names.
- `dataprocess.dfy` — the `ExtendedDataFrame` class, whose fields the merge updates in place, and
  `UnpackJsonAndMerge`.
- `scenarios.dfy` — two worked cases: the rows x=1, x=1, x=2 deduplicated, and a two-row frame
  unpacked.

`json.loads` is the parameter `decode`, which returns `None` where `json.loads` would raise. Facts
that hold only because `json.loads('')` raises assume `RejectsEmptyText(decode)`.

Where the code and its description differ, the model follows the code:

- All text cells of the column are decoded (line 56) before the loop tests a row for `''` or null
  (lines 60 and 68). So an empty text cell does not produce zero rows: `json.loads('')` raises, and
  the whole call fails (`EmptyTextAborts`). Only null cells and empty dictionaries contribute nothing.
- The `next` on lines 61 and 69 is an expression statement, not `continue`. A row is skipped only
  because emitting happens in the `else` branch.
- When no row contributes a key, the frame built at line 76 has no `orig_index` column, so
  `set_index` at line 77 raises (`UnpackEmptyFails`). The model returns `EmptyResult` here.
- `raise ("ERROR -- non-unique index found")` raises a string, which Python 3 turns into a
  `TypeError`. The call still aborts before anything is built. The model reports `NonUniqueIndex`.
- `deduplicate` on a frame with rows but no columns returns the rows as they are (pandas' `drop_duplicates`
  copies an empty frame), so its duplicate rows all survive. The properties of kept rows
  (`DeduplicateDistinct`, `DeduplicateKeepsFirst`, `DeduplicateCovers`) therefore require at least one column.
- `unpack_json_and_merge` changes the caller's frame at lines 84-85 before unpacking, so the frame
  stays changed when unpacking then fails.

## Model

| member | source | states |
|---|---|---|
| Dedup.Deduplicate | hagerstrand/dataprocess.py:14-24 | on success: same columns, index `0..n-1`, no more rows than the input, every kept row is an input row; it succeeds iff the frame has no rows or no columns, or else the subset columns all exist, the subset is not empty and no compared cell is unhashable; a missing subset column fails with exactly the missing names; only a frame with rows and columns can fail |
| Dedup.FirstPositions | hagerstrand/dataprocess.py:18-22 | `keep='first'`: ascending positions, each the first occurrence of its key, and every first occurrence is among them |
| Dedup.DeduplicateDistinct | hagerstrand/dataprocess.py:17-24 | no two kept rows agree on the compared columns (all columns, or the subset) |
| Dedup.DeduplicateKeepsFirst | hagerstrand/dataprocess.py:17-24 | the kept rows are the input rows at ascending positions, and a position is kept iff its key has not occurred before |
| Dedup.FirstOccurrenceKept | hagerstrand/dataprocess.py:18-22 | every key of the input is the key of some kept position |
| Dedup.DeduplicateCovers | hagerstrand/dataprocess.py:17-24 | every input row's key is carried by some kept row |
| Dedup.FirstPositionsOfDistinct | hagerstrand/dataprocess.py:18-22 | keys that are already distinct are all kept, in order |
| Dedup.DeduplicateOfDistinct | hagerstrand/dataprocess.py:17-24 | a frame with distinct keys and a dense index comes back unchanged |
| Dedup.DeduplicateKeepsHashable | hagerstrand/dataprocess.py:17-24 | the result holds no unhashable compared cell |
| Dedup.DeduplicateIdempotent | hagerstrand/dataprocess.py:19-23 | deduplicating twice equals deduplicating once |
| Tables.DistinctCount | hagerstrand/dataprocess.py:53 | `index.unique()` has at most as many labels as the index has, and exactly as many iff no label repeats |
| JsonUnpack.DecodeCells | hagerstrand/dataprocess.py:40 | succeeds iff every text cell decodes; then text cells are decoded and other cells pass through unchanged; otherwise it fails on the first text that does not decode |
| JsonUnpack.LoadJsonNan | hagerstrand/dataprocess.py:39-40 | succeeds iff the column exists and all its text decodes; the same per-cell result; a missing column is `KeyNotFound` of that name, and with the column present the only failure is a decoding error |
| JsonUnpack.Skipped | hagerstrand/dataprocess.py:60-61 | the skip test (also line 68): a null cell is always skipped, a text cell is skipped iff it is empty, and a cell holding a number, list or dictionary is never skipped |
| JsonUnpack.Passthrough | hagerstrand/dataprocess.py:71 | `row[index_name]` succeeds iff no `index_name` is given or the row has that column, and then yields the name with the row's value; otherwise it fails with `KeyNotFound` of that name |
| JsonUnpack.Record | hagerstrand/dataprocess.py:63-72 | the long row has exactly the passthrough, key and value columns; the value column holds the value; the key column holds the key unless the value column has the same name; the passthrough holds its value unless a later entry shares its name |
| JsonUnpack.RowRecords | hagerstrand/dataprocess.py:60-73 | succeeds iff the cell is skipped, or the passthrough lookup succeeds and the decoded cell is a dictionary; every record carries that row's label and exactly the long columns; a failure is `KeyNotFound` or `NotAMapping` |
| JsonUnpack.Collect | hagerstrand/dataprocess.py:58-74 | the accumulated records all have the long columns; failures are those of a row |
| JsonUnpack.LongColumns | hagerstrand/dataprocess.py:76-77 | the long frame's columns are exactly the passthrough, key and value names |
| JsonUnpack.UnpackJsonSpec | hagerstrand/dataprocess.py:43-78 | a successful result is a rectangular frame with at least one row |
| JsonUnpack.UnpackJson | hagerstrand/dataprocess.py:43-78 | the loop over the rows returns exactly `UnpackJsonSpec`; the input frame is a value and is not changed |
| JsonUnpack.CollectStep | hagerstrand/dataprocess.py:58-74 | one more loop turn: the accumulator grows by the row's records, or the row's error ends the loop |
| JsonUnpack.CollectPrefixFailure | hagerstrand/dataprocess.py:58-74 | once a row fails, every longer prefix fails with the same error |
| UnpackLemmas.CollectFlatten | hagerstrand/dataprocess.py:58-74 | the loop succeeds iff every row does, and then returns the rows' groups concatenated in table order |
| UnpackLemmas.RowRecordsEntries | hagerstrand/dataprocess.py:60-73 | a row contributes one record per dictionary entry, in entry order, with that key and value; a null cell contributes none |
| UnpackLemmas.UnpackLoads | hagerstrand/dataprocess.py:55-56 | a successful call found the column and decoded all of it |
| UnpackLemmas.UnpackGroups | hagerstrand/dataprocess.py:56-77 | the long rows are the concatenation of the per-row groups, and group i has as many records as row i has keys |
| UnpackLemmas.UnpackNonUniqueIndex | hagerstrand/dataprocess.py:53-54 | the call fails with the non-unique-index error iff some index label repeats |
| UnpackLemmas.UnpackAbortsOnUndecodable | hagerstrand/dataprocess.py:56 | with a unique index, one undecodable text cell anywhere in the column makes the call fail with a decoding error |
| UnpackLemmas.EmptyTextAborts | hagerstrand/dataprocess.py:56-60 | an empty text cell makes the call fail, although line 60 tests for `''` |
| UnpackLemmas.UnpackRejectsNonMapping | hagerstrand/dataprocess.py:62-64 | a cell that is neither null nor empty and does not decode to a dictionary makes the call fail |
| UnpackLemmas.RowRejectsNonMapping | hagerstrand/dataprocess.py:62-64 | the same for one row: `.items()` on a non-dictionary fails |
| UnpackLemmas.UnpackMissingIndexName | hagerstrand/dataprocess.py:71 | with `index_name` naming no column, a row that is not skipped makes the call fail |
| UnpackLemmas.UnpackCount | hagerstrand/dataprocess.py:58-77 | the long frame has as many rows as the origin rows have keys in total; null rows count zero |
| UnpackLemmas.UnpackSucceeds | hagerstrand/dataprocess.py:53-77 | the call succeeds when the index is unique, the column exists and all its text decodes, every row that is not skipped decodes to a dictionary and has the `index_name` column, and there is at least one key in all |
| UnpackLemmas.CollectTotal | hagerstrand/dataprocess.py:58-74 | when every row succeeds, the loop succeeds with one record per key of the column |
| UnpackLemmas.UnpackEmptyFails | hagerstrand/dataprocess.py:76-77 | when no row has a key, the call fails |
| UnpackLemmas.GroupAt | hagerstrand/dataprocess.py:63-73 | record j of row i's group carries row i's label and the passthrough, the key and the value of entry j |
| UnpackLemmas.UnpackLayoutAt | hagerstrand/dataprocess.py:63-77 | record j of origin row i sits at (keys of rows before i) + j; it carries row i's index label, entry j's key and value, and the passthrough value |
| UnpackLemmas.UnpackLayout | hagerstrand/dataprocess.py:63-77 | the same statement for every origin row and every entry at once |
| UnpackLemmas.UnpackGrouped | hagerstrand/dataprocess.py:63-77 | the long rows split into one consecutive group per origin row, in table order; the rows of a group carry that origin row's index label |
| UnpackLemmas.UnpackDefaultNames | hagerstrand/dataprocess.py:49-63 | with no names given, the long row is exactly `{<col>_key: key, <col>_value: value}` |
| UnpackLemmas.UnpackCarriesIndexName | hagerstrand/dataprocess.py:71-72 | with `index_name` set to a column other than the key and value columns, every long row holds its origin row's value of that column |
| Merge.ResetForMerge | hagerstrand/dataprocess.py:83-85 | the frame stays rectangular; its index becomes `0..n-1`, so no label repeats; without `keep_index` nothing else changes; with it, `index_original` is appended as the last column unless already present (the column order is otherwise unchanged), holds each row's old label, and every other cell is unchanged |
| Merge.MergeSpec | hagerstrand/dataprocess.py:86-87 | the result index is `0..n-1`; the merge fails iff unpacking fails, with the same error |
| Merge.Matches | hagerstrand/dataprocess.py:87 | one left row's share of the inner join: at most one widened row per right row; `MatchesAll`, `MatchesNone` and `MatchesGroups` state which right rows match, and that each match is the left row overwritten by the right row's cells |
| Merge.JoinRows | hagerstrand/dataprocess.py:87 | the inner join on the index, left row order first and right order among one left row's matches; at most one row per (left, right) pair; `JoinDense` and `JoinWidens` state what it computes against the reset frame |
| Merge.MatchesConcat | hagerstrand/dataprocess.py:87 | a left row's matches against two concatenated right sides are the two sets of matches in order |
| Merge.MatchesAll | hagerstrand/dataprocess.py:87 | right rows that all share the left label all match, in order |
| Merge.MatchesNone | hagerstrand/dataprocess.py:87 | right rows with other labels match nothing |
| Merge.MatchesGroups | hagerstrand/dataprocess.py:87 | against long rows grouped by dense label, label i matches exactly group i |
| Merge.JoinGroups | hagerstrand/dataprocess.py:87 | joining the first m dense left rows yields their groups, each widened by its left row |
| Merge.AttachedIsCombine | hagerstrand/dataprocess.py:87 | those widened groups are the long rows in order, each widened by the origin row it names |
| Merge.JoinDense | hagerstrand/dataprocess.py:85-87 | against a dense index, the inner join equals the reference join in long-row order |
| Merge.JoinWidens | hagerstrand/dataprocess.py:85-87 | the join has one row per long row, and row k is origin row `orig_index[k]` widened by long row k |
| Merge.MergeRows | hagerstrand/dataprocess.py:85-87 | the merged frame has the origin columns then the long columns, one row per long row, and row k is origin row `orig_index[k]` widened by long row k |
| Merge.MergeLayoutAt | hagerstrand/dataprocess.py:63-87 | record j of origin row i's dictionary becomes merged row (keys of rows before i) + j: origin row i plus the key and value |
| Merge.MergeCount | hagerstrand/dataprocess.py:86-87 | the merge has as many rows as the long frame, which is the total number of keys |
| Merge.MergeWellFormed | hagerstrand/dataprocess.py:87 | every merged row has exactly the origin and the long columns |
| Merge.MergeNeverNonUnique | hagerstrand/dataprocess.py:85-86 | after the reset the non-unique-index error cannot occur |
| DataProcess.ExtendedDataFrame.Deduplicate | hagerstrand/dataprocess.py:14-24 | returns `Deduplicate` of the frame and leaves the frame alone |
| DataProcess.ExtendedDataFrame.JsonColNewDf | hagerstrand/dataprocess.py:26-29 | returns `unpack_json` of the frame with every default |
| DataProcess.ExtendedDataFrame.JsonColMerge | hagerstrand/dataprocess.py:31-34 | resets this frame as `unpack_json_and_merge` does with its defaults, and returns the merge of the reset frame |
| DataProcess.UnpackJsonAndMerge | hagerstrand/dataprocess.py:81-88 | the caller's frame becomes `ResetForMerge` of its old contents, and stays valid; the result is `MergeSpec` of the reset frame |
| Scenarios.DeduplicateExample | hagerstrand/dataprocess.py:17-20 | the rows x=1, x=1, x=2 deduplicate to x=1, x=2, indexed 0 and 1 |
| Scenarios.UnpackExample | hagerstrand/dataprocess.py:58-77 | row 1 with `{"a": 10, "b": 20}` and row 2 with null unpack to two long rows, both labelled 1 |

## Left out

- `json.loads` is not modelled. It is the parameter `decode`. JSON numbers are integers, and floats and NaN are not modelled; a pandas NaN cell is the `Null` value.
- Tables.Value: a `Dict` keeps its entries as a sequence, which may repeat a key; a Python dict from
  `json.loads` cannot (a repeated key keeps its last value). The model does not require `decode` to return
  distinct keys, so on such a value `Entries`, `TotalKeys` and `UnpackCount` count every entry, repeats included.
- Cells holding a list are always an error when they are unpacked, but not always the same error as in Python. In Python the skip test of lines 60 and 68 evaluates `'' == [...] or pd.isnull([...])`. On a list of two or more elements that is an array whose truth value raises `ValueError`, before the `index_name` lookup on line 71. The model passes the skip test and fails later, with `KeyNotFound` or `NotAMapping`. On a one-element list whose element is null, `pd.isnull` would skip the row. Neither case is modelled.
- A passthrough, key or value column literally named `orig_index` would overwrite the index entry of the record literal. The model keeps the label apart from the row, so this collision is not modelled.
- Merge.MergeSpec: pandas adds `_x`/`_y` suffixes when the origin frame and the long frame share a column name. The model keeps the long frame's value under the plain name. Dtype coercion is not modelled.
- `ExtendedDataFrame.__init__` and `_constructor` (lines 5-12) only pass construction through to pandas. They are just the class constructor here, and results are returned as plain frame values.
- Dedup.Deduplicate: a `subset` given as one column name rather than a list is modelled only as a one-element list.
- `hagerstrand/hagerstrand.py` (map widgets, shapefile and Google location-history conversion) and `hagerstrand/toolbar.py` (widget wiring) are user interface and file I/O. They are not part of this model.
- The nearest-neighbour spatial join is not part of this model. It lives in modules outside `dataprocess.py`, and it is floating-point geometry.
