/** The backward as-of join `pd.merge_asof(left, right, on='HostTimestamp', by='NodeName')`
    with pandas' defaults: direction "backward", exact matches allowed, matches only inside
    the same `NodeName` group, every left row kept (a left-outer join). */
module AsOf {
  import opened Frame

  /** `r` may be attached to an anchor row at time `t` of group `node`. */
  predicate Candidate(r: Reading, t: int, node: string) {
    r.nodeName == node && r.hostTimestamp <= t
  }

  /** What the join attaches to an anchor row at time `t` of group `node`: the payload of the
      last candidate in the right table's order, or null when the right table has none. */
  ghost predicate IsBackwardMatch(right: Capture, t: int, node: string, cell: Option<Payload>) {
    if cell.None? then
      forall k :: 0 <= k < |right| ==> !Candidate(right[k], t, node)
    else
      exists k :: 0 <= k < |right| && Candidate(right[k], t, node) && cell.value == right[k].payload &&
        forall k' :: k < k' < |right| ==> !Candidate(right[k'], t, node)
  }

  /** The whole join: one output row per left row, in left order, with the left row's keys and
      cells followed by the backward match in `right`. */
  ghost predicate IsAsOfJoin(left: Table, right: Capture, out: Table) {
    |out| == |left| &&
    forall i :: 0 <= i < |left| ==>
      out[i].hostTimestamp == left[i].hostTimestamp &&
      out[i].nodeName == left[i].nodeName &&
      |out[i].cells| == |left[i].cells| + 1 &&
      out[i].cells[..|left[i].cells|] == left[i].cells &&
      IsBackwardMatch(right, left[i].hostTimestamp, left[i].nodeName, out[i].cells[|left[i].cells|])
  }

  /** The index of the last candidate in `right`, searching from the end. */
  function LastMatch(right: Capture, t: int, node: string): (m: Option<nat>)
    ensures m.Some? ==> m.value < |right| && Candidate(right[m.value], t, node)
    ensures m.Some? ==> forall k :: m.value < k < |right| ==> !Candidate(right[k], t, node)
    ensures m.None? ==> forall k :: 0 <= k < |right| ==> !Candidate(right[k], t, node)
    decreases |right|
  {
    if right == [] then None
    else if Candidate(right[|right| - 1], t, node) then Some(|right| - 1)
    else LastMatch(right[..|right| - 1], t, node)
  }

  /** The cell the join attaches for an anchor row at time `t` of group `node`. */
  function MatchedCell(right: Capture, t: int, node: string): (cell: Option<Payload>)
    ensures IsBackwardMatch(right, t, node, cell)
  {
    match LastMatch(right, t, node)
    case None => None
    case Some(k) => Some(right[k].payload)
  }

  /** The join of one anchor row. */
  function JoinRow(row: Row, right: Capture): Row
  {
    Row(row.hostTimestamp, row.nodeName, row.cells + [MatchedCell(right, row.hostTimestamp, row.nodeName)])
  }

  /** The join of every anchor row. */
  function JoinRows(left: Table, right: Capture): Table
  {
    seq(|left|, i requires 0 <= i < |left| => JoinRow(left[i], right))
  }

  /** `pd.merge_asof`: refuses unsorted `on` keys (left checked first), otherwise joins. */
  function MergeAsOf(left: Table, right: Capture): Result<Table, MergeError>
  {
    if !RowsSorted(left) then Failure(LeftKeysUnsorted)
    else if !Sorted(right) then Failure(RightKeysUnsorted)
    else Success(JoinRows(left, right))
  }

  /** The join keeps one row per anchor row, in anchor order, extends it with the backward
      match, and so keeps the anchor sorted when it was. */
  lemma JoinRowsIsAsOfJoin(left: Table, right: Capture)
    ensures IsAsOfJoin(left, right, JoinRows(left, right))
    ensures RowsSorted(left) ==> RowsSorted(JoinRows(left, right))
  {
    var out := JoinRows(left, right);
    forall i | 0 <= i < |left|
      ensures out[i].cells[..|left[i].cells|] == left[i].cells
      ensures IsBackwardMatch(right, left[i].hostTimestamp, left[i].nodeName, out[i].cells[|left[i].cells|])
    {
    }
  }

  /** Unsorted keys are refused, left side first; sorted keys give the as-of join, whose rows
      are again sorted. */
  lemma MergeAsOfOutcome(left: Table, right: Capture)
    ensures !RowsSorted(left) ==> MergeAsOf(left, right) == Failure(LeftKeysUnsorted)
    ensures RowsSorted(left) && !Sorted(right) ==> MergeAsOf(left, right) == Failure(RightKeysUnsorted)
    ensures RowsSorted(left) && Sorted(right) ==>
      MergeAsOf(left, right).Success? && IsAsOfJoin(left, right, MergeAsOf(left, right).value) &&
      RowsSorted(MergeAsOf(left, right).value)
  {
    JoinRowsIsAsOfJoin(left, right);
  }

  /** The backward match is fully determined: two cells that both meet it are equal. */
  lemma BackwardMatchUnique(right: Capture, t: int, node: string, c1: Option<Payload>, c2: Option<Payload>)
    requires IsBackwardMatch(right, t, node, c1)
    requires IsBackwardMatch(right, t, node, c2)
    ensures c1 == c2
  {
    if c1.Some? && c2.Some? {
      var k1 :| 0 <= k1 < |right| && Candidate(right[k1], t, node) && c1.value == right[k1].payload &&
        forall k' :: k1 < k' < |right| ==> !Candidate(right[k'], t, node);
      var k2 :| 0 <= k2 < |right| && Candidate(right[k2], t, node) && c2.value == right[k2].payload &&
        forall k' :: k2 < k' < |right| ==> !Candidate(right[k'], t, node);
      assert k1 == k2;
    }
  }

  /** The join's specification admits exactly one output table, the one `JoinRows` builds. */
  lemma AsOfJoinUnique(left: Table, right: Capture, out: Table)
    requires IsAsOfJoin(left, right, out)
    ensures out == JoinRows(left, right)
  {
    var expected := JoinRows(left, right);
    JoinRowsIsAsOfJoin(left, right);
    forall i | 0 <= i < |left|
      ensures out[i] == expected[i]
    {
      var n := |left[i].cells|;
      BackwardMatchUnique(right, left[i].hostTimestamp, left[i].nodeName, out[i].cells[n], expected[i].cells[n]);
      assert out[i].cells == out[i].cells[..n] + [out[i].cells[n]];
      assert expected[i].cells == expected[i].cells[..n] + [expected[i].cells[n]];
    }
  }

  /** On a right table sorted by time, the matched reading carries the latest timestamp of all
      candidates: no reading of the group at or before `t` is more recent. */
  lemma MatchIsLatest(right: Capture, t: int, node: string)
    requires Sorted(right)
    requires LastMatch(right, t, node).Some?
    ensures forall k :: 0 <= k < |right| && Candidate(right[k], t, node) ==>
      right[k].hostTimestamp <= right[LastMatch(right, t, node).value].hostTimestamp
  {
  }

  /** The readings of `s` whose `NodeName` is `node`, in order. */
  function Group(s: Capture, node: string): (g: Capture)
    ensures |g| <= |s|
    ensures forall k :: 0 <= k < |g| ==> g[k].nodeName == node
  {
    if s == [] then []
    else
      var last := s[|s| - 1];
      Group(s[..|s| - 1], node) + if last.nodeName == node then [last] else []
  }

  /** Rows are matched only within their own group: readings of other nodes never affect the
      cell attached to an anchor row of `node`. */
  lemma {:induction false} OtherGroupsIgnored(right: Capture, t: int, node: string)
    ensures MatchedCell(right, t, node) == MatchedCell(Group(right, node), t, node)
    decreases |right|
  {
    if right != [] {
      var init, last := right[..|right| - 1], right[|right| - 1];
      var g := Group(init, node);
      if Candidate(last, t, node) {
        assert Group(right, node) == g + [last];
      } else {
        OtherGroupsIgnored(init, t, node);
        if last.nodeName == node {
          assert Group(right, node) == g + [last];
          assert (g + [last])[..|g|] == g;
        } else {
          assert Group(right, node) == g;
        }
      }
    }
  }

  /** A right table without readings of `node` attaches only nulls to that node's rows; so
      captures whose node names all differ from the anchor's contribute nothing. */
  lemma NoSharedNodeNoMatch(right: Capture, t: int, node: string)
    requires forall k :: 0 <= k < |right| ==> right[k].nodeName != node
    ensures MatchedCell(right, t, node) == None
  {
  }

  /** Two anchor readings A at 1, 3, 5 and right readings B at 0, 2, 4, 6, all of one node:
      the rows at 1, 3 and 5 get the payloads of B's readings at 0, 2 and 4. */
  lemma BackwardExample(node: string, a: seq<Payload>, b: seq<Payload>)
    requires |a| == 3 && |b| == 4
    ensures
      var anchor := [Reading(1, node, a[0]), Reading(3, node, a[1]), Reading(5, node, a[2])];
      var right := [Reading(0, node, b[0]), Reading(2, node, b[1]), Reading(4, node, b[2]), Reading(6, node, b[3])];
      MergeAsOf(AnchorRows(anchor), right) == Success([
        Row(1, node, [Some(a[0]), Some(b[0])]),
        Row(3, node, [Some(a[1]), Some(b[1])]),
        Row(5, node, [Some(a[2]), Some(b[2])])])
  {
    var anchor := [Reading(1, node, a[0]), Reading(3, node, a[1]), Reading(5, node, a[2])];
    var right := [Reading(0, node, b[0]), Reading(2, node, b[1]), Reading(4, node, b[2]), Reading(6, node, b[3])];
    var expected := [
        Row(1, node, [Some(a[0]), Some(b[0])]),
        Row(3, node, [Some(a[1]), Some(b[1])]),
        Row(5, node, [Some(a[2]), Some(b[2])])];
    var left := AnchorRows(anchor);
    assert Sorted(right);
    assert RowsSorted(left);
    forall i | 0 <= i < 3
      ensures IsBackwardMatch(right, left[i].hostTimestamp, node, expected[i].cells[1])
    {
      assert Candidate(right[i], left[i].hostTimestamp, node);
    }
    assert IsAsOfJoin(left, right, expected) by {
      forall i | 0 <= i < 3
        ensures expected[i].cells[..1] == left[i].cells
      {
      }
    }
    AsOfJoinUnique(left, right, expected);
  }
}
