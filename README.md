# Mouse-gesture capture merge, modelled in Dafny

This project models `merge.py` from the mouse-gesture data-handling repository. That script builds
one training table out of raw sensor captures. Each gesture (`down`, `left`, `right`, `up`) was
recorded in 15 repetitions. Each repetition was recorded with two sensor placements: the
"normal" folder `<g>_files` and the alternate folder `<g>_files_g`. Every repetition of every
placement consists of several device capture files, one per sensor stream. Rows are matched
only between rows with the same `NodeName` (merge.py:24), so a capture with no reading of an
anchor row's node attaches only nulls to that row (`AsOf.NoSharedNodeNoMatch`).

The script works in three layers:

- `merge_gesture_by_index` (one repetition): sorts every capture by `HostTimestamp`. It stops
  when fewer than two captures exist. Otherwise it joins the first capture with the second,
  then the result with the third, each time with `pd.merge_asof(on='HostTimestamp',
  by='NodeName')`. That is a backward as-of join: each anchor row gets the latest row of the
  same node whose timestamp is not later than its own, or nulls when there is none.
- `merge_and_concat_gesture_types` (one gesture): for indices 1 to 15 it appends the normal
  and then the alternate repetition table. It checks that at least two tables were collected,
  concatenates them and adds the `move_type` column (the upper-cased first letter of the
  gesture name).
- `main` (all gestures): runs the gesture step for each gesture in list order and
  concatenates the results.

The model has three modules:

- `Frame` (`frame.dfy`) holds the table values:
  - a capture is a sequence of `Reading`s (host timestamp, node name, payload);
  - a joined row keeps the anchor's keys plus one `Option` cell per joined capture;
  - the sort by host timestamp and `pd.concat`.
- `AsOf` (`asof.dfy`) holds the backward as-of join. It includes pandas' refusal of unsorted
  `on` keys, which checks the left side first.
- `Merge` (`merge.dfy`) holds the three loops:
  - the loops are imperative methods, each proved equal to a specification function
    (`MergeTables`, `Repetitions`, `GestureTable`, `Aggregate`);
  - lemmas about those functions state what the script promises.

File discovery and CSV reading are a parameter `Store`. It maps (placement, gesture name,
repetition index) to the captures found, in discovery order. `exit()` and the uncaught
exceptions of the script become `Failure` values of a `Result`. The first failure ends the
whole run.

Three consequences of the code as written are kept in the model:

- A repetition needs three captures. The guard at merge.py:17 admits two captures, but the
  second join at merge.py:26 reads `all_df[2]` and raises `IndexError` when there are only two
  (`NoThirdDeviceTable`).
- The tables of a gesture are appended interleaved: normal 1, alternate 1, normal 2,
  alternate 2 and so on (merge.py:46-51).
- The check at merge.py:54 counts collected tables, not rows. A completed loop always holds
  30 tables, so the check can never fail.

## Model

| member | source | states |
|---|---|---|
| Frame.SortByTimestamp | merge.py:13 | no contract of its own; Frame.SortByTimestampSorted states it (sorted permutation of the capture) |
| Frame.Concat | merge.py:59 | no contract of its own; Frame.ConcatLength and Frame.ConcatIndex state it (row count is the sum, rows part after part) |
| AsOf.MergeAsOf | merge.py:22-28 | no contract of its own; AsOf.MergeAsOfOutcome and AsOf.AsOfJoinUnique state it (key-order errors, else the unique as-of join) |
| AsOf.NoSharedNodeNoMatch | merge.py:24 | a right table with no reading of the anchor row's node attaches null to that row |
| Merge.MergeTables | merge.py:5-30 | no contract of its own; Merge.MergeTablesOutcome states it |
| Merge.Repetitions | merge.py:37-51 | no contract of its own; Merge.RepetitionsSucceed, Merge.RepetitionsLayout and Merge.RepetitionFailureCarriesOver state it |
| Merge.UpperAscii | merge.py:62 | no contract of its own; Merge.GestureLetter states its value on the four gesture names |
| Merge.Label | merge.py:63 | one labelled row per input row, in order, each carrying the given `move_type` |
| Merge.ConcatAndLabel | merge.py:54-63 | no contract of its own; Merge.RepetitionCountCheckUnreachable and Merge.GestureTableRows state it |
| Merge.GestureTable | merge.py:33-70 | no contract of its own; Merge.GestureTableRows and Merge.GestureTableSucceeds state it |
| Merge.GestureTables | merge.py:85-88 | no contract of its own; Merge.GestureTablesLayout and Merge.GestureFailureCarriesOver state it |
| Merge.Aggregate | merge.py:80-91 | no contract of its own; Merge.AggregateParts, Merge.AggregateOrder and Merge.CompleteIffSuccess state it |
| Frame.InsertContents | merge.py:13 | inserting one reading adds exactly that reading (as a multiset), grows the capture by one and puts it first or behind the old first reading |
| Frame.InsertSorted | merge.py:13 | inserting into a capture sorted by host timestamp keeps it sorted |
| Frame.SortByTimestampSorted | merge.py:13 | `sort_values('HostTimestamp')` yields a capture ordered by host timestamp that is a permutation of the input (same multiset, same length) |
| Frame.ConcatAppend | merge.py:59 | concatenating the parts of two lists of tables equals concatenating the two concatenations |
| Frame.TotalRowsAppend | merge.py:59 | the summed row count of two lists of tables is the sum of their row counts |
| Frame.ConcatLength | merge.py:59 | the row count of `pd.concat(parts)` is the sum of the parts' row counts |
| Frame.ConcatIndex | merge.py:91 | row `k` of part `j` appears in the concatenation at the position right after all rows of parts `0..j-1` |
| AsOf.LastMatch | merge.py:22-24 | the index found is a reading of the same node at or before `t` with no such reading after it; no index means no reading of the node at or before `t` |
| AsOf.MatchedCell | merge.py:22-24 | the attached cell is the backward match: the payload of the last same-node reading at or before `t`, or null when there is none |
| AsOf.JoinRowsIsAsOfJoin | merge.py:22-24 | the join keeps one row per anchor row, in anchor order, with its keys and earlier cells, adds the backward match, and keeps a time-sorted anchor sorted |
| AsOf.MergeAsOfOutcome | merge.py:22-28 | an unsorted left side is refused first, then an unsorted right side; two sorted sides give the as-of join, sorted again |
| AsOf.BackwardMatchUnique | merge.py:22-24 | at most one cell meets the backward-match definition |
| AsOf.AsOfJoinUnique | merge.py:22-24 | any table that meets the as-of join definition is the table the join computes |
| AsOf.MatchIsLatest | merge.py:22-23 | on a time-sorted right side, the matched reading has the latest timestamp among all candidates |
| AsOf.OtherGroupsIgnored | merge.py:24 | `by='NodeName'`: the cell attached to a row of node `n` is the same when the right side is cut down to node `n`'s readings |
| AsOf.BackwardExample | merge.py:22-24 | anchor readings at 1, 3, 5 joined with readings at 0, 2, 4, 6 of the same node get the payloads from 0, 2 and 4 |
| Merge.MergeTablesOutcome | merge.py:5-30 | fewer than two captures abort with the found count; exactly two raise the missing-third-table error; three or more give the repetition table: one sorted row per anchor reading, carrying its payload and the backward matches in the second and third sorted captures, and neither sortedness check fires; a capture read from a file without data rows is not distinguished (see Merge.MergeTables under Left out) |
| Merge.MergeGestureByIndex | merge.py:5-30 | the method (sort loop, count check, two joins) returns exactly `MergeTables` of the captures the store lists |
| Merge.RepetitionsSucceed | merge.py:37-51 | the repetition loop over 1..n succeeds exactly when the normal and the alternate merge of every index succeed |
| Merge.RepetitionsLayout | merge.py:37-51 | a successful loop over 1..n collects 2n tables, the normal table of index k at position 2k-2 and the alternate one at 2k-1 |
| Merge.RepetitionsStep | merge.py:46-51 | after successful earlier indices, a failure of index n's normal table, then of its alternate table, is the outcome of the whole loop; otherwise both tables are appended |
| Merge.RepetitionFailureCarriesOver | merge.py:37-47 | once the loop fails at some index, every longer loop ends with that same failure |
| Merge.RepetitionCountCheckUnreachable | merge.py:53-56 | a successful loop always yields 30 tables, so the gesture step then fails only on an empty gesture name |
| Merge.GestureTableRows | merge.py:58-63 | a gesture table is the concatenation of its repetition tables, in loop order, with as many rows as they have together, every row labelled with the upper-cased first letter of the gesture name |
| Merge.MergeRepetitions | merge.py:37-51 | the loop method returns exactly the repetition tables `Repetitions` specifies, or the first failure |
| Merge.MergeAndConcatGestureTypes | merge.py:33-70 | the method returns exactly `GestureTable` for the gesture |
| Merge.GestureTablesLayout | merge.py:85-88 | the gesture loop succeeds exactly when every gesture does, and then holds one table per gesture, in list order |
| Merge.GestureFailureCarriesOver | merge.py:85-88 | once a gesture fails, the loop over the remaining gestures ends with that same failure |
| Merge.AggregateParts | merge.py:80-91 | a successful aggregate has one part per gesture of `down, left, right, up`, each that gesture's table; the aggregate is their concatenation and its row count is their sum |
| Merge.GestureTablesRow | merge.py:85-91 | row `k` of the j-th gesture's table sits in the concatenated gesture tables right after the rows of the gestures before it |
| Merge.GestureLetter | merge.py:62-63 | the `move_type` labels of the four gestures are D, L, R and U |
| Merge.AggregateOrder | merge.py:80-91 | row `k` of gesture `j` sits in the aggregate right after all rows of the gestures before it, labelled D, L, R or U after its gesture |
| Merge.GestureTableSucceeds | merge.py:5-70 | one gesture merges exactly when its name is non-empty and every repetition of both placements finds at least three captures; as the model reads captures, where a file without data rows is an empty capture that merges (see Merge.MergeTables under Left out) |
| Merge.GestureTablesSucceed | merge.py:85-88 | the gesture loop succeeds exactly when each gesture succeeds on its own |
| Merge.CompleteIffSuccess | merge.py:73-91 | the whole run succeeds exactly when every repetition of every gesture, in both placements, finds at least three captures; as the model reads captures, where a file without data rows is an empty capture that merges (see Merge.MergeTables under Left out) |
| Merge.MergeAllGestures | merge.py:73-91 | the method (gesture loop, then concatenation) returns exactly `Aggregate` of the store |

## Left out

- File discovery (`glob`, `os.path.join`, `os.getcwd`) and `pd.read_csv(..., skiprows=4)`
  are not modelled. The `Store` parameter stands for what they return, in discovery order.
- Merge.MergeTables: does not model capture files without data rows. pandas reads such a file
  (preamble and header only) with object-typed columns, and `merge_asof` (merge.py:22, 26) then
  refuses it as a join key of the wrong type when it is one of the first three captures. The
  typed `Store` can only return an empty capture, which the model merges into an empty table or
  null cells. So Merge.MergeTablesOutcome, Merge.GestureTableSucceeds and
  Merge.CompleteIffSuccess promise success where the script stops on such a file.
- Writing the CSV files (`to_csv`), `print`, `time.time()` and the closing row-count message
  are not modelled, because they are output only.
- Column names, the `_x`/`_y` suffixes pandas adds to clashing columns, and the DataFrame
  index are not modelled. Each joined capture contributes one cell holding its whole payload,
  or null.
- The sensor channels and metadata columns of a reading are abstracted to a payload
  `seq<int>`. Host timestamps are integers; floating-point timestamps are not modelled.
- Frame.SortByTimestamp: stable, while the script's `sort_values` uses pandas' default
  quicksort, which is not stable. For readings with equal host timestamps, the model's order,
  and so the reading a join picks among them, can differ from pandas'.
- Merge.UpperAscii: upper-cases ASCII letters only. Python's `str.upper` also maps other
  letters and may produce several characters.
- Null join keys: `merge_asof` also refuses null `on` keys. That error is not modelled,
  because the model's timestamps are never null.
- A fourth or later capture of a repetition is sorted but never joined, exactly as in the
  script. The model keeps it and ignores it.
