/** `iter_block_groups` and `build_block_header` of tools/mock_wss/replay.py. */
module BlockGroups {
  import opened Prelude
  import opened HexText
  import opened Events

  datatype Group = Group(number: int, timestamp: string, rows: seq<Row>)

  /** The maximal runs of rows that share a block number; a run takes its first row's timestamp. */
  function Groups(events: seq<Row>): seq<Group> {
    if events == [] then [] else AddRow(Groups(events[..|events| - 1]), events[|events| - 1])
  }

  function AddRow(front: seq<Group>, row: Row): seq<Group> {
    if front != [] && front[|front| - 1].number == row.blockNumber
    then front[..|front| - 1] + [front[|front| - 1].(rows := front[|front| - 1].rows + [row])]
    else front + [Group(row.blockNumber, row.timestamp, [row])]
  }

  lemma GroupsStep(events: seq<Row>, row: Row)
    ensures Groups(events + [row]) == AddRow(Groups(events), row)
  {
    assert (events + [row])[..|events|] == events;
  }

  /** A row either extends the open group or closes it and opens its own. */
  lemma AddToOpen(closed: seq<Group>, open: Group, row: Row)
    ensures AddRow(closed + [open], row)
         == if row.blockNumber != open.number
            then closed + [open] + [Group(row.blockNumber, row.timestamp, [row])]
            else closed + [open.(rows := open.rows + [row])]
  {
    var front := closed + [open];
    assert front[..|front| - 1] == closed;
  }

  lemma GroupsNone()
    ensures Groups([]) == []
  {
  }

  lemma GroupsOne(row: Row)
    ensures Groups([row]) == [Group(row.blockNumber, row.timestamp, [row])]
  {
    assert [row][..0] == [];
  }

  method IterBlockGroups(events: seq<Row>) returns (groups: seq<Group>)
    ensures groups == Groups(events)
  {
    hide Groups, AddRow;
    groups := [];
    if events == [] {
      GroupsNone();
      return;
    }
    var curBlock, curTs, bucket := events[0].blockNumber, events[0].timestamp, [];
    for i := 0 to |events|
      invariant i == 0 ==> groups == [] && bucket == []
                           && curBlock == events[0].blockNumber && curTs == events[0].timestamp
      invariant i > 0 ==> Groups(events[..i]) == groups + [Group(curBlock, curTs, bucket)]
    {
      var row := events[i];
      assert events[..i + 1] == events[..i] + [row] && [] + [row] == [row];
      if i == 0 {
        assert events[..1] == [row];
        GroupsOne(row);
      } else {
        GroupsStep(events[..i], row);
        AddToOpen(groups, Group(curBlock, curTs, bucket), row);
      }
      if row.blockNumber != curBlock {
        groups := groups + [Group(curBlock, curTs, bucket)];
        curBlock, curTs, bucket := row.blockNumber, row.timestamp, [];
      }
      bucket := bucket + [row];
    }
    assert events[..|events|] == events;
    groups := groups + [Group(curBlock, curTs, bucket)];
  }

  ghost predicate IsGroup(g: Group) {
    && g.rows != [] && g.timestamp == g.rows[0].timestamp
    && forall i :: 0 <= i < |g.rows| ==> g.rows[i].blockNumber == g.number
  }

  function RowsOf(groups: seq<Group>): seq<Row> {
    if groups == [] then [] else RowsOf(groups[..|groups| - 1]) + groups[|groups| - 1].rows
  }

  /** What a grouping of `events` is: it flattens back to them, each group is one block's rows, and
      neighbouring groups are different blocks. */
  ghost predicate IsGrouping(events: seq<Row>, groups: seq<Group>) {
    && RowsOf(groups) == events
    && (forall i :: 0 <= i < |groups| ==> IsGroup(groups[i]))
    && (forall i :: 0 < i < |groups| ==> groups[i - 1].number != groups[i].number)
  }

  lemma AddRowKeepsGrouping(events: seq<Row>, front: seq<Group>, row: Row)
    requires IsGrouping(events, front)
    ensures IsGrouping(events + [row], AddRow(front, row))
  {
    var groups := AddRow(front, row);
    if front != [] && front[|front| - 1].number == row.blockNumber {
      var n := |front| - 1;
      assert groups[..n] == front[..n] && IsGroup(front[n]);
      assert RowsOf(groups) == RowsOf(front) + [row];
      assert IsGroup(groups[n]);
    } else {
      assert groups[..|front|] == front;
    }
  }

  lemma {:induction false} GroupsIsGrouping(events: seq<Row>)
    ensures IsGrouping(events, Groups(events))
  {
    if events != [] {
      GroupsIsGrouping(events[..|events| - 1]);
      AddRowKeepsGrouping(events[..|events| - 1], Groups(events[..|events| - 1]), events[|events| - 1]);
      assert events == events[..|events| - 1] + [events[|events| - 1]];
    }
  }

  /** Every non-empty grouping is a grouping of all but the last row, extended by that row. */
  lemma TakeLastRow(events: seq<Row>, groups: seq<Group>) returns (shorter: seq<Group>)
    requires IsGrouping(events, groups) && groups != []
    ensures events != [] && IsGrouping(events[..|events| - 1], shorter)
    ensures groups == AddRow(shorter, events[|events| - 1])
  {
    var n := |groups| - 1;
    var g := groups[n];
    assert IsGroup(g);
    var last := g.rows[|g.rows| - 1];
    assert events[|events| - 1] == last && groups == groups[..n] + [g];
    if |g.rows| == 1 {
      shorter := groups[..n];
      assert g.rows == [last] && g == Group(last.blockNumber, last.timestamp, [last]);
    } else {
      var h := g.(rows := g.rows[..|g.rows| - 1]);
      shorter := groups[..n] + [h];
      assert IsGroup(h) && g.rows == h.rows + [last];
      assert shorter[..n] == groups[..n];
    }
    assert events[..|events| - 1] == RowsOf(shorter);
  }

  /** There is only one grouping, so these properties say everything about `iter_block_groups`. */
  lemma {:induction false} GroupingIsUnique(events: seq<Row>, groups: seq<Group>)
    requires IsGrouping(events, groups)
    ensures groups == Groups(events)
    decreases |events|
  {
    if groups != [] {
      var shorter := TakeLastRow(events, groups);
      GroupingIsUnique(events[..|events| - 1], shorter);
    }
  }

  predicate SortedByBlock(events: seq<Row>) {
    forall i, j :: 0 <= i < j < |events| ==> events[i].blockNumber <= events[j].blockNumber
  }

  lemma {:induction false} RowsInOrder(groups: seq<Group>, i: nat)
    requires i + 1 < |groups| && forall k :: 0 <= k < |groups| ==> IsGroup(groups[k])
    requires SortedByBlock(RowsOf(groups))
    ensures groups[i].number <= groups[i + 1].number
    decreases |groups|
  {
    var n := |groups| - 1;
    var rows, front, a, b := RowsOf(groups), groups[..n], groups[i], groups[i + 1];
    if i + 1 < n {
      assert forall k :: 0 <= k < |RowsOf(front)| ==> RowsOf(front)[k] == rows[k];
      RowsInOrder(front, i);
    } else {
      assert RowsOf(front) == RowsOf(front[..n - 1]) + a.rows;
      assert IsGroup(a) && IsGroup(b);
      var at := |RowsOf(front)|;
      assert rows[at - 1] == a.rows[|a.rows| - 1] && rows[at] == b.rows[0];
    }
  }

  /** On sorted input (what `load_events` guarantees) block numbers strictly increase. */
  lemma {:induction false} SortedGroupsIncrease(events: seq<Row>, i: nat, j: nat)
    requires SortedByBlock(events) && i < j < |Groups(events)|
    ensures Groups(events)[i].number < Groups(events)[j].number
    decreases j - i
  {
    var groups := Groups(events);
    GroupsIsGrouping(events);
    RowsInOrder(groups, j - 1);
    if i < j - 1 {
      SortedGroupsIncrease(events, i, j - 1);
    }
  }

  /** The header of a block; `epoch` is the strict timestamp parser, which may raise. */
  datatype Header = Header(number: string, timestamp: string)

  function BuildBlockHeader(number: int, timestamp: string, epoch: string -> Option<int>): Option<Header> {
    var t := epoch(timestamp);
    if t.None? then None else Some(Header(Hex(number), Hex(t.value)))
  }
}
