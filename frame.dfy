/** Tables of sensor readings, as the merge script handles them through pandas DataFrames.

    A device capture is a sequence of `Reading`s. The result of joining captures is a sequence
    of composite `Row`s: the anchor's join key (`HostTimestamp`) and partition key (`NodeName`),
    then one cell per joined device table, each either the whole payload of the matched reading
    or null (`None`) when there was no match. */
module Frame {

  datatype Option<+T> = None | Some(value: T)

  /** Success/failure of a step; `:-` propagates the first failure, as an uncaught
      Python exception (or `exit()`) ends the whole run. */
  datatype Result<+R, +E> = Success(value: R) | Failure(error: E) {
    predicate IsFailure() { Failure? }

    function PropagateFailure<U>(): Result<U, E>
      requires Failure?
    {
      Failure(error)
    }

    function Extract(): R
      requires Success?
    {
      value
    }
  }

  /** Every way the merge script can stop before producing its table. */
  datatype MergeError =
    | TooFewDeviceFiles(found: nat)       // exit() when fewer than two captures were found
    | NoThirdDeviceTable                  // IndexError: the second join reads all_df[2]
    | LeftKeysUnsorted                    // merge_asof: "left keys must be sorted"
    | RightKeysUnsorted                   // merge_asof: "right keys must be sorted"
    | TooFewRepetitionTables(count: nat)  // exit() when fewer than two repetition tables
    | EmptyGestureName                    // IndexError: gesture_name[0] of an empty name

  /** The non-key columns of one capture row (node timestamp, raw data, sensor channels, ...). */
  type Payload = seq<int>

  /** One row of a device capture file. */
  datatype Reading = Reading(hostTimestamp: int, nodeName: string, payload: Payload)

  /** One row of a joined table: the keys of the anchor row and one cell per device table. */
  datatype Row = Row(hostTimestamp: int, nodeName: string, cells: seq<Option<Payload>>)

  /** One row of a gesture table: a joined row with its `move_type` label. */
  datatype LabelledRow = LabelledRow(row: Row, moveType: char)

  type Capture = seq<Reading>
  type Table = seq<Row>

  predicate Sorted(s: Capture) {
    forall i, j :: 0 <= i < j < |s| ==> s[i].hostTimestamp <= s[j].hostTimestamp
  }

  predicate RowsSorted(t: Table) {
    forall i, j :: 0 <= i < j < |t| ==> t[i].hostTimestamp <= t[j].hostTimestamp
  }

  /** Inserts `x` into a capture, before the first reading with an equal or later timestamp. */
  function Insert(x: Reading, s: Capture): Capture
  {
    if s == [] then [x]
    else if x.hostTimestamp <= s[0].hostTimestamp then [x] + s
    else [s[0]] + Insert(x, s[1..])
  }

  /** `df.sort_values('HostTimestamp')`: the capture ordered by host timestamp. */
  function SortByTimestamp(s: Capture): Capture
  {
    if s == [] then [] else Insert(s[0], SortByTimestamp(s[1..]))
  }

  /** Inserting adds exactly `x`, in front or after the capture's first reading. */
  lemma {:induction false} InsertContents(x: Reading, s: Capture)
    ensures multiset(Insert(x, s)) == multiset(s) + multiset{x}
    ensures |Insert(x, s)| == |s| + 1
    ensures Insert(x, s)[0] == x || (s != [] && Insert(x, s)[0] == s[0])
    decreases |s|
  {
    if s != [] && x.hostTimestamp > s[0].hostTimestamp {
      InsertContents(x, s[1..]);
      assert s == [s[0]] + s[1..];
    }
  }

  /** Inserting into a sorted capture keeps it sorted. */
  lemma {:induction false} InsertSorted(x: Reading, s: Capture)
    requires Sorted(s)
    ensures Sorted(Insert(x, s))
    decreases |s|
  {
    InsertContents(x, s);
    if s != [] && x.hostTimestamp > s[0].hostTimestamp {
      var tail := Insert(x, s[1..]);
      InsertSorted(x, s[1..]);
      InsertContents(x, s[1..]);
      var r := [s[0]] + tail;
      assert Insert(x, s) == r;
      forall i, j | 0 <= i < j < |r|
        ensures r[i].hostTimestamp <= r[j].hostTimestamp
      {
        if i == 0 {
          assert s[0].hostTimestamp <= tail[0].hostTimestamp <= tail[j - 1].hostTimestamp;
        }
      }
    }
  }

  /** The sorted capture is ordered by host timestamp and holds exactly the input's readings. */
  lemma {:induction false} SortByTimestampSorted(s: Capture)
    ensures Sorted(SortByTimestamp(s))
    ensures multiset(SortByTimestamp(s)) == multiset(s)
    ensures |SortByTimestamp(s)| == |s|
    decreases |s|
  {
    if s != [] {
      SortByTimestampSorted(s[1..]);
      InsertSorted(s[0], SortByTimestamp(s[1..]));
      InsertContents(s[0], SortByTimestamp(s[1..]));
      assert s == [s[0]] + s[1..];
    }
  }

  /** The anchor of a join: each reading becomes a row whose one cell is its own payload. */
  function AnchorRows(s: Capture): Table
  {
    seq(|s|, i requires 0 <= i < |s| => Row(s[i].hostTimestamp, s[i].nodeName, [Some(s[i].payload)]))
  }

  /** `pd.concat(parts)`: the rows of every part, part after part. */
  function Concat<T>(parts: seq<seq<T>>): (r: seq<T>)
  {
    if parts == [] then [] else Concat(parts[..|parts| - 1]) + parts[|parts| - 1]
  }

  function TotalRows<T>(parts: seq<seq<T>>): nat
  {
    if parts == [] then 0 else TotalRows(parts[1..]) + |parts[0]|
  }

  lemma {:induction false} ConcatAppend<T>(parts: seq<seq<T>>, more: seq<seq<T>>)
    ensures Concat(parts + more) == Concat(parts) + Concat(more)
    decreases |more|
  {
    if more == [] {
      assert parts + more == parts;
    } else {
      var last := |more| - 1;
      assert (parts + more)[..|parts + more| - 1] == parts + more[..last];
      ConcatAppend(parts, more[..last]);
    }
  }

  lemma {:induction false} TotalRowsAppend<T>(parts: seq<seq<T>>, more: seq<seq<T>>)
    ensures TotalRows(parts + more) == TotalRows(parts) + TotalRows(more)
    decreases |parts|
  {
    if parts == [] {
      assert parts + more == more;
    } else {
      assert (parts + more)[1..] == parts[1..] + more;
      TotalRowsAppend(parts[1..], more);
    }
  }

  /** The row count of a concatenation is the sum of the parts' row counts. */
  lemma {:induction false} ConcatLength<T>(parts: seq<seq<T>>)
    ensures |Concat(parts)| == TotalRows(parts)
    decreases |parts|
  {
    if parts != [] {
      var init := parts[..|parts| - 1];
      ConcatLength(init);
      assert parts == init + [parts[|parts| - 1]];
      TotalRowsAppend(init, [parts[|parts| - 1]]);
    }
  }

  /** Row `k` of part `j` sits in the concatenation after all rows of the parts before `j`. */
  lemma {:induction false} ConcatIndex<T>(parts: seq<seq<T>>, j: nat, k: nat)
    requires j < |parts| && k < |parts[j]|
    ensures TotalRows(parts[..j]) + k < |Concat(parts)|
    ensures Concat(parts)[TotalRows(parts[..j]) + k] == parts[j][k]
  {
    assert parts == parts[..j] + [parts[j]] + parts[j + 1..];
    ConcatAppend(parts[..j] + [parts[j]], parts[j + 1..]);
    ConcatAppend(parts[..j], [parts[j]]);
    assert Concat([parts[j]]) == parts[j] by {
      assert [parts[j]][..0] == [];
    }
    ConcatLength(parts[..j]);
    ConcatLength(parts);
  }
}
