/** The merge script: per repetition, sort each device capture and join the captures with two
    chained backward as-of joins; per gesture, collect the 15 repetitions of both sensor
    placements, concatenate them and label them; finally concatenate the gestures. */
module Merge {
  import opened Frame
  import opened AsOf

  /** The two sensor-placement data sets of a gesture, the folders `<g>_files` and `<g>_files_g`. */
  datatype Dataset = Normal | Alternate

  /** Stands for file discovery and CSV reading: the captures found for a data set, gesture
      name and repetition index, in the order discovery lists them. */
  type Store = (Dataset, string, nat) -> seq<Capture>

  /** Repetitions are numbered 1 through 15. */
  const MaxRepetition: nat := 15

  /** The gestures merged into the aggregate table, in this order. */
  const Gestures: seq<string> := ["down", "left", "right", "up"]

  // ---------------------------------------------------------------------------------------
  // One repetition

  function SortAll(files: seq<Capture>): (all: seq<Capture>)
    ensures |all| == |files|
    ensures forall i :: 0 <= i < |files| ==> all[i] == SortByTimestamp(files[i])
  {
    seq(|files|, i requires 0 <= i < |files| => SortByTimestamp(files[i]))
  }

  /** The table of one repetition, as a function of the captures that were found. */
  function MergeTables(files: seq<Capture>): (r: Result<Table, MergeError>)
  {
    var all := SortAll(files);
    if |all| < 2 then Failure(TooFewDeviceFiles(|files|))
    else
      var first :- MergeAsOf(AnchorRows(all[0]), all[1]);
      if |all| < 3 then Failure(NoThirdDeviceTable)
      else MergeAsOf(first, all[2])
  }

  /** What a repetition table is: one row per reading of the first capture, in host-timestamp
      order, holding that reading's payload, then the backward match in the second capture,
      then the backward match in the third capture. */
  ghost predicate IsRepetitionTable(files: seq<Capture>, out: Table)
    requires |files| >= 3
  {
    var anchor := SortByTimestamp(files[0]);
    |out| == |anchor| &&
    RowsSorted(out) &&
    forall i :: 0 <= i < |anchor| ==>
      out[i].hostTimestamp == anchor[i].hostTimestamp &&
      out[i].nodeName == anchor[i].nodeName &&
      |out[i].cells| == 3 &&
      out[i].cells[0] == Some(anchor[i].payload) &&
      IsBackwardMatch(SortByTimestamp(files[1]), anchor[i].hostTimestamp, anchor[i].nodeName, out[i].cells[1]) &&
      IsBackwardMatch(SortByTimestamp(files[2]), anchor[i].hostTimestamp, anchor[i].nodeName, out[i].cells[2])
  }

  /** Fewer than two captures abort before any join; exactly two fail when the second join
      reads the third capture; with three or more the result is the repetition table (the
      sortedness checks of both joins always pass, and captures after the third are unused). */
  lemma MergeTablesOutcome(files: seq<Capture>)
    ensures |files| < 2 ==> MergeTables(files) == Failure(TooFewDeviceFiles(|files|))
    ensures |files| == 2 ==> MergeTables(files) == Failure(NoThirdDeviceTable)
    ensures |files| >= 3 ==> MergeTables(files).Success? && IsRepetitionTable(files, MergeTables(files).value)
  {
    var all := SortAll(files);
    if |files| >= 2 {
      SortByTimestampSorted(files[0]);
      SortByTimestampSorted(files[1]);
      var anchor := AnchorRows(all[0]);
      assert RowsSorted(anchor);
      MergeAsOfOutcome(anchor, all[1]);
      var first := MergeAsOf(anchor, all[1]).value;
      if |files| >= 3 {
        SortByTimestampSorted(files[2]);
        MergeAsOfOutcome(first, all[2]);
        var out := MergeAsOf(first, all[2]).value;
        forall i | 0 <= i < |anchor|
          ensures out[i].cells[0] == Some(all[0][i].payload)
          ensures out[i].cells[1] == first[i].cells[1]
        {
          assert out[i].cells[..2] == first[i].cells;
          assert first[i].cells[..1] == anchor[i].cells;
        }
      }
    }
  }

  /** merge_gesture_by_index: discover the captures, sort each one, check there are at least
      two, then join the first with the second and the result with the third. */
  method MergeGestureByIndex(store: Store, dataset: Dataset, gestureName: string, index: nat)
    returns (r: Result<Table, MergeError>)
    ensures r == MergeTables(store(dataset, gestureName, index))
  {
    var dataFiles := store(dataset, gestureName, index);
    var allDf: seq<Capture> := [];
    for i := 0 to |dataFiles|
      invariant allDf == SortAll(dataFiles[..i])
      invariant forall j :: 0 <= j < i ==> Sorted(allDf[j])
    {
      var df := SortByTimestamp(dataFiles[i]);
      SortByTimestampSorted(dataFiles[i]);
      allDf := allDf + [df];
    }
    assert dataFiles[..|dataFiles|] == dataFiles;
    if |allDf| < 2 {
      return Failure(TooFewDeviceFiles(|dataFiles|));
    }
    // Every capture is sorted by now, so merge_asof's key-order checks pass.
    MergeAsOfOutcome(AnchorRows(allDf[0]), allDf[1]);
    var merged := MergeAsOf(AnchorRows(allDf[0]), allDf[1]).value;
    if |allDf| < 3 {
      return Failure(NoThirdDeviceTable);
    }
    r := MergeAsOf(merged, allDf[2]);
  }

  // ---------------------------------------------------------------------------------------
  // One gesture

  /** Merges the captures of one repetition; the script's is `MergeTables`. */
  type RepetitionMerge = seq<Capture> -> Result<Table, MergeError>

  /** The repetition indices 1 through `n`, `range(1, n + 1)`. */
  function Indices(n: nat): (ix: seq<nat>)
    ensures |ix| == n
    ensures forall k :: 0 <= k < n ==> ix[k] == k + 1
  {
    seq(n, k requires 0 <= k < n => k + 1)
  }

  /** The repetition tables of the repetitions `indices`, for each index the normal placement
      then the alternate one; the first failure in that order ends the run. */
  function Repetitions(merge: RepetitionMerge, store: Store, gestureName: string, indices: seq<nat>): Result<seq<Table>, MergeError>
  {
    if indices == [] then Success([])
    else
      var earlier :- Repetitions(merge, store, gestureName, indices[..|indices| - 1]);
      var index := indices[|indices| - 1];
      var normal :- merge(store(Normal, gestureName, index));
      var alternate :- merge(store(Alternate, gestureName, index));
      Success(earlier + [normal, alternate])
  }

  /** The ASCII upper case of `c`; every other character is kept. */
  function UpperAscii(c: char): char
  {
    if 'a' <= c <= 'z' then (c as int - 'a' as int + 'A' as int) as char else c
  }

  /** Every row of `rows`, with the `move_type` column set to `moveType`. */
  function Label(rows: Table, moveType: char): (out: seq<LabelledRow>)
    ensures |out| == |rows|
    ensures forall i :: 0 <= i < |rows| ==> out[i] == LabelledRow(rows[i], moveType)
  {
    seq(|rows|, i requires 0 <= i < |rows| => LabelledRow(rows[i], moveType))
  }

  /** The end of merge_and_concat_gesture_types: check that at least two repetition tables
      were collected, concatenate them and label every row with the upper-cased first letter
      of the gesture name. */
  function ConcatAndLabel(parts: seq<Table>, gestureName: string): Result<seq<LabelledRow>, MergeError>
  {
    if |parts| < 2 then Failure(TooFewRepetitionTables(|parts|))
    else if gestureName == [] then Failure(EmptyGestureName)
    else Success(Label(Concat(parts), UpperAscii(gestureName[0])))
  }

  /** The table of one gesture, as a function of the store. */
  function GestureTable(store: Store, gestureName: string): Result<seq<LabelledRow>, MergeError>
  {
    var parts :- Repetitions(MergeTables, store, gestureName, Indices(MaxRepetition));
    ConcatAndLabel(parts, gestureName)
  }

  /** Repetitions 1 through `n` succeed exactly when every one of their merges does. */
  lemma {:induction false} RepetitionsSucceed(merge: RepetitionMerge, store: Store, gestureName: string, n: nat)
    ensures Repetitions(merge, store, gestureName, Indices(n)).Success? <==>
      forall k :: 1 <= k <= n ==>
        merge(store(Normal, gestureName, k)).Success? &&
        merge(store(Alternate, gestureName, k)).Success?
  {
    if n > 0 {
      RepetitionsSucceed(merge, store, gestureName, n - 1);
      if Repetitions(merge, store, gestureName, Indices(n - 1)).Failure? {
        RepetitionFailureCarriesOver(merge, store, gestureName, n - 1, n);
      } else {
        RepetitionsStep(merge, store, gestureName, n, n);
      }
    }
  }

  /** Successful repetitions 1 through `n` yield 2 * n tables: normal 1, alternate 1,
      normal 2, alternate 2, and so on. */
  lemma {:induction false} RepetitionsLayout(merge: RepetitionMerge, store: Store, gestureName: string, n: nat)
    requires Repetitions(merge, store, gestureName, Indices(n)).Success?
    ensures
      var parts := Repetitions(merge, store, gestureName, Indices(n)).value;
      |parts| == 2 * n &&
      forall k :: 1 <= k <= n ==>
        merge(store(Normal, gestureName, k)).Success? &&
        merge(store(Alternate, gestureName, k)).Success? &&
        parts[2 * k - 2] == merge(store(Normal, gestureName, k)).value &&
        parts[2 * k - 1] == merge(store(Alternate, gestureName, k)).value
  {
    if n > 0 {
      assert Indices(n)[..n - 1] == Indices(n - 1);
      var earlier := Repetitions(merge, store, gestureName, Indices(n - 1));
      RepetitionsLayout(merge, store, gestureName, n - 1);
      RepetitionsStep(merge, store, gestureName, n, n);
      var parts := Repetitions(merge, store, gestureName, Indices(n)).value;
      forall k | 1 <= k < n
        ensures merge(store(Normal, gestureName, k)).Success? && merge(store(Alternate, gestureName, k)).Success?
        ensures parts[2 * k - 2] == merge(store(Normal, gestureName, k)).value
        ensures parts[2 * k - 1] == merge(store(Alternate, gestureName, k)).value
      {
        assert parts[2 * k - 2] == earlier.value[2 * k - 2];
        assert parts[2 * k - 1] == earlier.value[2 * k - 1];
      }
    }
  }

  /** Repetition `n` after successful earlier ones: a failure of its normal table, else of its
      alternate table, is the outcome of every longer loop too; otherwise both tables are
      appended. */
  lemma RepetitionsStep(merge: RepetitionMerge, store: Store, gestureName: string, n: nat, m: nat)
    requires 0 < n <= m
    requires Repetitions(merge, store, gestureName, Indices(n - 1)).Success?
    ensures merge(store(Normal, gestureName, n)).Failure? ==>
      Repetitions(merge, store, gestureName, Indices(m)) == Failure(merge(store(Normal, gestureName, n)).error)
    ensures merge(store(Normal, gestureName, n)).Success? && merge(store(Alternate, gestureName, n)).Failure? ==>
      Repetitions(merge, store, gestureName, Indices(m)) == Failure(merge(store(Alternate, gestureName, n)).error)
    ensures merge(store(Normal, gestureName, n)).Success? && merge(store(Alternate, gestureName, n)).Success? ==>
      Repetitions(merge, store, gestureName, Indices(n)) == Success(Repetitions(merge, store, gestureName, Indices(n - 1)).value +
        [merge(store(Normal, gestureName, n)).value, merge(store(Alternate, gestureName, n)).value])
  {
    assert Indices(n)[..n - 1] == Indices(n - 1);
    if Repetitions(merge, store, gestureName, Indices(n)).Failure? {
      RepetitionFailureCarriesOver(merge, store, gestureName, n, m);
    }
  }

  /** Once a repetition fails, the loop over the later ones ends with that same failure. */
  lemma {:induction false} RepetitionFailureCarriesOver(merge: RepetitionMerge, store: Store, gestureName: string, k: nat, n: nat)
    requires k <= n
    requires Repetitions(merge, store, gestureName, Indices(k)).Failure?
    ensures Repetitions(merge, store, gestureName, Indices(n)) == Failure(Repetitions(merge, store, gestureName, Indices(k)).error)
    decreases n
  {
    if k < n {
      RepetitionFailureCarriesOver(merge, store, gestureName, k, n - 1);
      assert Indices(n)[..n - 1] == Indices(n - 1);
    }
  }

  /** The check that fewer than two repetition tables were collected can never fail: the loop
      always collects 30 of them. */
  lemma RepetitionCountCheckUnreachable(store: Store, gestureName: string)
    ensures Repetitions(MergeTables, store, gestureName, Indices(MaxRepetition)).Success? ==>
      |Repetitions(MergeTables, store, gestureName, Indices(MaxRepetition)).value| == 2 * MaxRepetition
    ensures Repetitions(MergeTables, store, gestureName, Indices(MaxRepetition)).Success? ==>
      (GestureTable(store, gestureName).Success? <==> gestureName != [])
  {
    if Repetitions(MergeTables, store, gestureName, Indices(MaxRepetition)).Success? {
      RepetitionsLayout(MergeTables, store, gestureName, MaxRepetition);
    }
  }

  /** A gesture table is the concatenation of its 30 repetition tables, in loop order, each row
      labelled with the upper-cased first letter of the gesture name; its row count is the sum
      of theirs. */
  lemma GestureTableRows(store: Store, gestureName: string)
    requires GestureTable(store, gestureName).Success?
    ensures gestureName != []
    ensures Repetitions(MergeTables, store, gestureName, Indices(MaxRepetition)).Success?
    ensures
      var parts := Repetitions(MergeTables, store, gestureName, Indices(MaxRepetition)).value;
      var rows := GestureTable(store, gestureName).value;
      |rows| == TotalRows(parts) &&
      forall i :: 0 <= i < |rows| ==>
        rows[i].row == Concat(parts)[i] && rows[i].moveType == UpperAscii(gestureName[0])
  {
    ConcatLength(Repetitions(MergeTables, store, gestureName, Indices(MaxRepetition)).value);
  }

  /** The loop of merge_and_concat_gesture_types over indices 1..n: for each index merge the
      normal and then the alternate repetition and append both tables; the first failure ends
      the run. */
  method MergeRepetitions(store: Store, gestureName: string, n: nat)
    returns (r: Result<seq<Table>, MergeError>)
    ensures r == Repetitions(MergeTables, store, gestureName, Indices(n))
  {
    var allMovementsOfGesture: seq<Table> := [];
    for i := 1 to n + 1
      invariant Repetitions(MergeTables, store, gestureName, Indices(i - 1)) == Success(allMovementsOfGesture)
    {
      RepetitionsStep(MergeTables, store, gestureName, i, n);
      var dataNormal := MergeGestureByIndex(store, Normal, gestureName, i);
      if dataNormal.Failure? {
        return Failure(dataNormal.error);
      }
      var dataG := MergeGestureByIndex(store, Alternate, gestureName, i);
      if dataG.Failure? {
        return Failure(dataG.error);
      }
      allMovementsOfGesture := allMovementsOfGesture + [dataNormal.value, dataG.value];
    }
    r := Success(allMovementsOfGesture);
  }

  /** merge_and_concat_gesture_types: the repetition loop over indices 1..15, then the count
      check, the concatenation and the labelling. */
  method MergeAndConcatGestureTypes(store: Store, gestureName: string)
    returns (r: Result<seq<LabelledRow>, MergeError>)
    ensures r == GestureTable(store, gestureName)
  {
    var allMovementsOfGesture :- MergeRepetitions(store, gestureName, MaxRepetition);
    r := ConcatAndLabel(allMovementsOfGesture, gestureName);
  }

  // ---------------------------------------------------------------------------------------
  // All gestures

  /** Builds the table of one gesture; the script's is `GestureTable`. */
  type GestureMerge = (Store, string) -> Result<seq<LabelledRow>, MergeError>

  /** The gesture tables of `names`, in list order; the first failure ends the run. */
  function GestureTables(tableOf: GestureMerge, store: Store, names: seq<string>): Result<seq<seq<LabelledRow>>, MergeError>
    decreases |names|
  {
    if names == [] then Success([])
    else
      var earlier :- GestureTables(tableOf, store, names[..|names| - 1]);
      var table :- tableOf(store, names[|names| - 1]);
      Success(earlier + [table])
  }

  /** The aggregate table: every gesture table, in the order of `Gestures`. */
  function Aggregate(store: Store): Result<seq<LabelledRow>, MergeError>
  {
    var parts :- GestureTables(GestureTable, store, Gestures);
    Success(Concat(parts))
  }

  /** The gesture tables succeed exactly when every gesture does, and then there is one per
      name, in list order. */
  lemma {:induction false} GestureTablesLayout(tableOf: GestureMerge, store: Store, names: seq<string>)
    ensures GestureTables(tableOf, store, names).Success? <==>
      forall j :: 0 <= j < |names| ==> tableOf(store, names[j]).Success?
    ensures GestureTables(tableOf, store, names).Success? ==>
      var parts := GestureTables(tableOf, store, names).value;
      |parts| == |names| &&
      forall j :: 0 <= j < |names| ==> parts[j] == tableOf(store, names[j]).value
    decreases |names|
  {
    if names != [] {
      var init := names[..|names| - 1];
      GestureTablesLayout(tableOf, store, init);
      var earlier := GestureTables(tableOf, store, init);
      var table := tableOf(store, names[|names| - 1]);
      if earlier.Success? && table.Success? {
        var parts := earlier.value + [table.value];
        assert GestureTables(tableOf, store, names) == Success(parts);
        forall j | 0 <= j < |names|
          ensures parts[j] == tableOf(store, names[j]).value
        {
          if j < |init| {
            assert names[j] == init[j];
          }
        }
      } else if earlier.Failure? {
        var j :| 0 <= j < |init| && !tableOf(store, init[j]).Success?;
        assert names[j] == init[j];
      }
    }
  }

  /** Once a gesture fails, the loop over the later ones ends with that same failure. */
  lemma {:induction false} GestureFailureCarriesOver(tableOf: GestureMerge, store: Store, names: seq<string>, j: nat)
    requires j <= |names|
    requires GestureTables(tableOf, store, names[..j]).Failure?
    ensures GestureTables(tableOf, store, names) == Failure(GestureTables(tableOf, store, names[..j]).error)
    decreases |names|
  {
    if j < |names| {
      var init := names[..|names| - 1];
      assert init[..j] == names[..j];
      GestureFailureCarriesOver(tableOf, store, init, j);
    } else {
      assert names[..j] == names;
    }
  }

  /** The aggregate table has one part per gesture of `Gestures`, in list order, and as many
      rows as the parts together. */
  lemma AggregateParts(store: Store)
    requires Aggregate(store).Success?
    ensures GestureTables(GestureTable, store, Gestures).Success?
    ensures
      var parts := GestureTables(GestureTable, store, Gestures).value;
      |parts| == |Gestures| &&
      (forall j :: 0 <= j < |Gestures| ==>
        GestureTable(store, Gestures[j]).Success? && parts[j] == GestureTable(store, Gestures[j]).value) &&
      Aggregate(store).value == Concat(parts) &&
      |Aggregate(store).value| == TotalRows(parts)
  {
    GestureTablesLayout(GestureTable, store, Gestures);
    ConcatLength(GestureTables(GestureTable, store, Gestures).value);
  }

  /** Row `k` of the table of `names[j]` sits in the concatenated gesture tables right after
      the rows of the names before it. */
  lemma GestureTablesRow(tableOf: GestureMerge, store: Store, names: seq<string>, j: nat, k: nat)
    requires GestureTables(tableOf, store, names).Success?
    requires j < |names|
    requires tableOf(store, names[j]).Success?
    requires k < |tableOf(store, names[j]).value|
    ensures |GestureTables(tableOf, store, names).value| == |names|
    ensures
      var parts := GestureTables(tableOf, store, names).value;
      TotalRows(parts[..j]) + k < |Concat(parts)| &&
      Concat(parts)[TotalRows(parts[..j]) + k] == tableOf(store, names[j]).value[k]
  {
    GestureTablesLayout(tableOf, store, names);
    ConcatIndex(GestureTables(tableOf, store, names).value, j, k);
  }

  /** The labels of the four gestures: D, L, R and U. */
  lemma GestureLetter(j: nat)
    requires j < |Gestures|
    ensures Gestures[j] != [] && UpperAscii(Gestures[j][0]) == ['D', 'L', 'R', 'U'][j]
  {
  }

  /** Row `k` of gesture `j` sits in the aggregate table right after the rows of the gestures
      before it, labelled D, L, R or U after its gesture. */
  lemma AggregateOrder(store: Store, j: nat, k: nat)
    requires Aggregate(store).Success?
    requires j < |Gestures|
    requires GestureTable(store, Gestures[j]).Success?
    requires k < |GestureTable(store, Gestures[j]).value|
    ensures GestureTables(GestureTable, store, Gestures).Success?
    ensures |GestureTables(GestureTable, store, Gestures).value| == |Gestures|
    ensures
      var parts := GestureTables(GestureTable, store, Gestures).value;
      var at := TotalRows(parts[..j]) + k;
      at < |Aggregate(store).value| &&
      Aggregate(store).value[at] == GestureTable(store, Gestures[j]).value[k] &&
      Aggregate(store).value[at].moveType == ['D', 'L', 'R', 'U'][j]
  {
    GestureTablesRow(GestureTable, store, Gestures, j, k);
    var g := Gestures[j];
    GestureTableRows(store, g);
    assert GestureTable(store, g).value[k].moveType == UpperAscii(g[0]);
    GestureLetter(j);
  }

  /** Every repetition of `gestureName`, in both data sets, finds at least three captures. */
  ghost predicate Complete(store: Store, gestureName: string) {
    forall d: Dataset, k :: 1 <= k <= MaxRepetition ==> |store(d, gestureName, k)| >= 3
  }

  /** One gesture merges exactly when its name is not empty and every repetition, in both data
      sets, finds at least three captures. */
  lemma GestureTableSucceeds(store: Store, gestureName: string)
    ensures GestureTable(store, gestureName).Success? <==>
      gestureName != [] && Complete(store, gestureName)
  {
    RepetitionsSucceed(MergeTables, store, gestureName, MaxRepetition);
    RepetitionCountCheckUnreachable(store, gestureName);
    forall d: Dataset, k | 1 <= k <= MaxRepetition
      ensures MergeTables(store(d, gestureName, k)).Success? <==> |store(d, gestureName, k)| >= 3
    {
      MergeTablesOutcome(store(d, gestureName, k));
    }
    if Complete(store, gestureName) {
      assert Repetitions(MergeTables, store, gestureName, Indices(MaxRepetition)).Success?;
    } else {
      var d: Dataset, k :| 1 <= k <= MaxRepetition && |store(d, gestureName, k)| < 3;
      if d == Normal {
        assert !MergeTables(store(Normal, gestureName, k)).Success?;
      } else {
        assert !MergeTables(store(Alternate, gestureName, k)).Success?;
      }
      assert !Repetitions(MergeTables, store, gestureName, Indices(MaxRepetition)).Success?;
    }
  }

  /** The gestures merge together exactly when each of them merges on its own. */
  lemma GestureTablesSucceed(tableOf: GestureMerge, store: Store, names: seq<string>, ok: string -> bool)
    requires forall g :: g in names ==> (tableOf(store, g).Success? <==> ok(g))
    ensures GestureTables(tableOf, store, names).Success? <==> forall g :: g in names ==> ok(g)
  {
    GestureTablesLayout(tableOf, store, names);
    assert forall g :: g in names ==> exists j :: 0 <= j < |names| && names[j] == g;
  }

  /** The run merges everything exactly when every repetition of every gesture, in both data
      sets, finds at least three captures. */
  lemma CompleteIffSuccess(store: Store)
    ensures Aggregate(store).Success? <==> forall g :: g in Gestures ==> Complete(store, g)
  {
    forall g | g in Gestures
      ensures GestureTable(store, g).Success? <==> Complete(store, g)
    {
      GestureTableSucceeds(store, g);
    }
    GestureTablesSucceed(GestureTable, store, Gestures, g => Complete(store, g));
  }

  /** main: merge every gesture in list order and concatenate the results. */
  method MergeAllGestures(store: Store) returns (r: Result<seq<LabelledRow>, MergeError>)
    ensures r == Aggregate(store)
  {
    var allMergedAndContactData: seq<seq<LabelledRow>> := [];
    for j := 0 to |Gestures|
      invariant GestureTables(GestureTable, store, Gestures[..j]) == Success(allMergedAndContactData)
    {
      var gestureData := MergeAndConcatGestureTypes(store, Gestures[j]);
      assert Gestures[..j + 1][..j] == Gestures[..j];
      if gestureData.Failure? {
        GestureFailureCarriesOver(GestureTable, store, Gestures, j + 1);
        return Failure(gestureData.error);
      }
      allMergedAndContactData := allMergedAndContactData + [gestureData.value];
    }
    assert Gestures[..|Gestures|] == Gestures;
    r := Success(Concat(allMergedAndContactData));
  }
}
