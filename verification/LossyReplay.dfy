/** What the realtime loop makes of any replay, whatever the client's queue has evicted: under which time
    each event is stamped, what is still delivered, and in which order. */
module LossyReplay {
  import opened Prelude
  import opened HexText
  import opened Events
  import opened Decoders
  import opened Replay
  import opened BlockGroups
  import opened Router
  import opened ClientQueues
  import opened ServerRuns
  import opened Pipeline
  import opened EndToEnd

  function HeadOf(m: Message): Option<Header> {
    if m.Notice? && m.result.HeadAction? then Some(m.result.header) else None
  }

  function LogOf(m: Message): Option<Log> {
    if m.Notice? && m.result.LogAction? then Some(m.result.log) else None
  }

  function LastHead(ms: seq<Message>): Option<Header> {
    if ms == [] then None
    else if HeadOf(ms[|ms| - 1]).Some? then HeadOf(ms[|ms| - 1])
    else LastHead(ms[..|ms| - 1])
  }

  /** The head of the log's own block was among the messages before it. */
  ghost predicate OwnHeadSent(ms: seq<Message>, k: nat)
    requires k < |ms| && LogOf(ms[k]).Some?
  {
    exists i :: 0 <= i < k && HeadOf(ms[i]).Some? && HeadOf(ms[i]).value.number == LogOf(ms[k]).value.blockNumber
  }

  // The order of a replay.

  function Number(h: Header): Option<int> {
    ReadHex(h.number)
  }

  function LogKey(log: Log): Option<(int, int)> {
    var block, index := ToInt(log.blockNumber), ToInt(log.logIndex);
    if block.None? || index.None? then None else Some((block.value, index.value))
  }

  predicate KeyAtMost(a: (int, int), b: (int, int)) {
    a.0 < b.0 || (a.0 == b.0 && a.1 <= b.1)
  }

  /** One action before another: heads by rising block numbers, logs by block and index. */
  predicate InOrder(a: Action, b: Action) {
    match (a, b)
    case (HeadAction(g), HeadAction(h)) => Number(g).Some? && Number(h).Some? && Number(g).value < Number(h).value
    case (LogAction(l), LogAction(m)) =>
      LogKey(l).Some? && LogKey(m).Some? ==> KeyAtMost(LogKey(l).value, LogKey(m).value)
    case _ => true
  }

  ghost predicate Ordered(actions: seq<Action>) {
    forall i, j :: 0 <= i < j < |actions| ==> InOrder(actions[i], actions[j])
  }

  function RowKey(row: Row): (int, int) {
    (row.blockNumber, row.logIndex)
  }

  /** What `load_events` sorts by. */
  predicate SortedByKey(events: seq<Row>) {
    forall i, j :: 0 <= i < j < |events| ==> KeyAtMost(RowKey(events[i]), RowKey(events[j]))
  }

  lemma OrderedConcat(a: seq<Action>, b: seq<Action>)
    requires Ordered(a) && Ordered(b)
    requires forall i, j :: 0 <= i < |a| && 0 <= j < |b| ==> InOrder(a[i], b[j])
    ensures Ordered(a + b)
  {
    hide InOrder;
    var all := a + b;
    forall i, j | 0 <= i < j < |all| ensures InOrder(all[i], all[j]) {
      if i < |a| && j >= |a| {
        assert InOrder(a[i], b[j - |a|]);
      }
    }
  }

  lemma KeyOfRow(row: Row)
    requires BuildRawLog(row).Some?
    ensures LogKey(BuildRawLog(row).value)
         == if row.blockNumber >= 0 && row.logIndex >= 0 then Some(RowKey(row)) else None
  {
    ToIntOfHex(row.blockNumber);
    ToIntOfHex(row.logIndex);
  }

  lemma RowsInOrder(row: Row, next: Row)
    requires BuildRawLog(row).Some? && BuildRawLog(next).Some? && KeyAtMost(RowKey(row), RowKey(next))
    ensures InOrder(LogAction(BuildRawLog(row).value), LogAction(BuildRawLog(next).value))
  {
    hide BuildRawLog, LogKey;
    KeyOfRow(row);
    KeyOfRow(next);
  }

  predicate IsLogOf(a: Action, row: Row) {
    BuildRawLog(row).Some? && a == LogAction(BuildRawLog(row).value)
  }

  lemma {:induction false} LogsFromRows(rows: seq<Row>, k: nat) returns (i: nat)
    requires k < |LogActions(rows)|
    ensures i < |rows| && IsLogOf(LogActions(rows)[k], rows[i])
  {
    hide BuildRawLog;
    var front := rows[..|rows| - 1];
    if k < |LogActions(front)| {
      i := LogsFromRows(front, k);
    } else {
      i := |rows| - 1;
    }
  }

  lemma {:induction false} LogActionsOrdered(rows: seq<Row>)
    requires SortedByKey(rows)
    ensures Ordered(LogActions(rows))
  {
    hide BuildRawLog, InOrder, KeyAtMost, RowKey;
    if rows != [] {
      var front, last := rows[..|rows| - 1], rows[|rows| - 1];
      LogActionsOrdered(front);
      if BuildRawLog(last).Some? {
        var a := LogAction(BuildRawLog(last).value);
        forall k | 0 <= k < |LogActions(front)| ensures InOrder(LogActions(front)[k], a) {
          var i := LogsFromRows(front, k);
          RowsInOrder(rows[i], last);
        }
        OrderedConcat(LogActions(front), [a]);
      } else {
        assert LogActions(rows) == LogActions(front);
      }
    }
  }

  /** Where an action of the script comes from. */
  ghost predicate FromGroups(a: Action, groups: seq<Group>, epoch: string -> Option<int>) {
    match a
    case HeadAction(h) =>
      exists i :: 0 <= i < |groups| && BuildBlockHeader(groups[i].number, groups[i].timestamp, epoch) == Some(h)
    case LogAction(_) => exists i :: 0 <= i < |RowsOf(groups)| && IsLogOf(a, RowsOf(groups)[i])
  }

  lemma FromMoreGroups(a: Action, front: seq<Group>, g: Group, epoch: string -> Option<int>)
    requires FromGroups(a, front, epoch)
    ensures FromGroups(a, front + [g], epoch)
  {
    hide IsLogOf, BuildBlockHeader;
    RowsOfMore(front, g);
    if a.HeadAction? {
      var i :| 0 <= i < |front| && BuildBlockHeader(front[i].number, front[i].timestamp, epoch) == Some(a.header);
      assert (front + [g])[i] == front[i];
    } else {
      var i :| 0 <= i < |RowsOf(front)| && IsLogOf(a, RowsOf(front)[i]);
      assert RowsOf(front + [g])[i] == RowsOf(front)[i];
    }
  }

  lemma RowsOfMore(front: seq<Group>, g: Group)
    ensures RowsOf(front + [g]) == RowsOf(front) + g.rows
  {
    assert (front + [g])[..|front|] == front;
  }

  lemma FromLastGroup(front: seq<Group>, g: Group, epoch: string -> Option<int>, l: nat)
    requires l < |BlockScript(g, epoch)|
    ensures FromGroups(BlockScript(g, epoch)[l], front + [g], epoch)
  {
    hide IsLogOf, LogActions;
    if l == 0 {
      assert (front + [g])[|front|] == g;
    } else {
      var i := LogsFromRows(g.rows, l - 1);
      IsLog(LogActions(g.rows)[l - 1], g.rows[i]);
      RowsOfMore(front, g);
      assert RowsOf(front + [g])[|RowsOf(front)| + i] == g.rows[i];
    }
  }

  lemma IsLog(a: Action, row: Row)
    requires IsLogOf(a, row)
    ensures a.LogAction?
  {
  }

  lemma {:induction false} ScriptFromGroups(groups: seq<Group>, epoch: string -> Option<int>, k: nat)
    requires k < |Script(groups, epoch)|
    ensures FromGroups(Script(groups, epoch)[k], groups, epoch)
  {
    hide FromGroups, BlockScript;
    var front, g := groups[..|groups| - 1], groups[|groups| - 1];
    assert groups == front + [g];
    if k < |Script(front, epoch)| {
      ScriptFromGroups(front, epoch, k);
      FromMoreGroups(Script(front, epoch)[k], front, g, epoch);
    } else {
      FromLastGroup(front, g, epoch, k - |Script(front, epoch)|);
    }
  }

  ghost predicate Rising(groups: seq<Group>) {
    forall i, j :: 0 <= i < j < |groups| ==> groups[i].number < groups[j].number
  }

  lemma HeadsInOrder(g: Group, h: Group, epoch: string -> Option<int>)
    requires g.number < h.number && epoch(g.timestamp).Some? && epoch(h.timestamp).Some?
    ensures InOrder(HeadAction(BuildBlockHeader(g.number, g.timestamp, epoch).value),
                    HeadAction(BuildBlockHeader(h.number, h.timestamp, epoch).value))
  {
    ReadHexOfHex(g.number);
    ReadHexOfHex(h.number);
  }

  lemma BlockInOrder(front: seq<Group>, g: Group, epoch: string -> Option<int>, k: nat, l: nat)
    requires Rising(front + [g]) && SortedByKey(RowsOf(front) + g.rows)
    requires k < |Script(front, epoch)| && l < |BlockScript(g, epoch)|
    ensures InOrder(Script(front, epoch)[k], BlockScript(g, epoch)[l])
  {
    hide BuildRawLog, KeyAtMost, RowKey, Script, LogActions, InOrder;
    var a, b := Script(front, epoch)[k], BlockScript(g, epoch)[l];
    var groups, rows := front + [g], RowsOf(front) + g.rows;
    ScriptFromGroups(front, epoch, k);
    if a.HeadAction? && l == 0 {
      var i :| 0 <= i < |front| && BuildBlockHeader(front[i].number, front[i].timestamp, epoch) == Some(a.header);
      assert groups[i] == front[i] && groups[|front|] == g;
      HeadsInOrder(front[i], g, epoch);
    } else if a.LogAction? && l > 0 {
      var i :| 0 <= i < |RowsOf(front)| && IsLogOf(a, RowsOf(front)[i]);
      var j := LogsFromRows(g.rows, l - 1);
      assert rows[i] == RowsOf(front)[i] && rows[|RowsOf(front)| + j] == g.rows[j];
      RowsInOrder(RowsOf(front)[i], g.rows[j]);
    } else {
      DifferentKinds(a, b, g, epoch, l);
    }
  }

  lemma DifferentKinds(a: Action, b: Action, g: Group, epoch: string -> Option<int>, l: nat)
    requires l < |BlockScript(g, epoch)| && b == BlockScript(g, epoch)[l] && (a.HeadAction? <==> l > 0)
    ensures InOrder(a, b)
  {
    if l > 0 {
      var j := LogsFromRows(g.rows, l - 1);
    }
  }

  lemma {:induction false} ScriptOrdered(groups: seq<Group>, epoch: string -> Option<int>)
    requires Rising(groups) && SortedByKey(RowsOf(groups))
    ensures Ordered(Script(groups, epoch))
  {
    hide InOrder, KeyAtMost, LogActions;
    if groups != [] {
      var front, g := groups[..|groups| - 1], groups[|groups| - 1];
      var rows := RowsOf(front) + g.rows;
      assert groups == front + [g] && RowsOf(groups) == rows;
      assert SortedByKey(RowsOf(front)) by {
        assert forall i :: 0 <= i < |RowsOf(front)| ==> RowsOf(front)[i] == rows[i];
      }
      ScriptOrdered(front, epoch);
      BlockOrdered(g, epoch, RowsOf(front));
      forall k, l | 0 <= k < |Script(front, epoch)| && 0 <= l < |BlockScript(g, epoch)|
        ensures InOrder(Script(front, epoch)[k], BlockScript(g, epoch)[l])
      {
        BlockInOrder(front, g, epoch, k, l);
      }
      OrderedConcat(Script(front, epoch), BlockScript(g, epoch));
    }
  }

  lemma BlockOrdered(g: Group, epoch: string -> Option<int>, before: seq<Row>)
    requires SortedByKey(before + g.rows)
    ensures Ordered(BlockScript(g, epoch))
  {
    hide KeyAtMost;
    var rows := before + g.rows;
    assert SortedByKey(g.rows) by {
      assert forall i :: 0 <= i < |g.rows| ==> g.rows[i] == rows[|before| + i];
    }
    LogActionsOrdered(g.rows);
    var header := BuildBlockHeader(g.number, g.timestamp, epoch);
    if header.Some? {
      forall k | 0 <= k < |LogActions(g.rows)| ensures InOrder(HeadAction(header.value), LogActions(g.rows)[k]) {
        var j := LogsFromRows(g.rows, k);
      }
      OrderedConcat([HeadAction(header.value)], LogActions(g.rows));
    }
  }

  lemma SortedRises(events: seq<Row>)
    requires SortedByKey(events)
    ensures Rising(Groups(events)) && RowsOf(Groups(events)) == events
    ensures forall i :: 0 <= i < |Groups(events)| ==> IsGroup(Groups(events)[i])
  {
    GroupsIsGrouping(events);
    assert SortedByBlock(events) by {
      forall i, j | 0 <= i < j < |events| ensures events[i].blockNumber <= events[j].blockNumber {
        assert KeyAtMost(RowKey(events[i]), RowKey(events[j]));
      }
    }
    forall i, j | 0 <= i < j < |Groups(events)| ensures Groups(events)[i].number < Groups(events)[j].number {
      SortedGroupsIncrease(events, i, j);
    }
  }

  // What a client that watches is notified of.

  function ResultsOf(ms: seq<Message>): seq<Action>
    requires forall k :: 0 <= k < |ms| ==> ms[k].Notice?
  {
    seq(|ms|, k requires 0 <= k < |ms| => ms[k].result)
  }

  /** Notifications, each under the subscription of its kind. */
  ghost predicate ByLoop(ms: seq<Message>, loop: Loop) {
    forall k :: 0 <= k < |ms| ==>
      ms[k].Notice? && ms[k].sub == if ms[k].result.HeadAction? then loop.headsId else loop.logsId
  }

  /** Every log follows its own block's head, with no other head in between. */
  ghost predicate OwnHeads(ms: seq<Message>) {
    forall k :: 0 <= k < |ms| && LogOf(ms[k]).Some? ==>
      LastHead(ms[..k]).Some? && LastHead(ms[..k]).value.number == LogOf(ms[k]).value.blockNumber
  }

  ghost predicate WellNoticed(ms: seq<Message>, actions: seq<Action>, loop: Loop) {
    && ByLoop(ms, loop) && OwnHeads(ms) && LastHead(ms) == LatestHead(actions)
    && IsSubsequence(ResultsOf(ms), actions)
  }

  lemma OneNotice(subs: seq<Subscription>, a: Action, loop: Loop)
    requires WatchesWhitelist(subs, loop)
    ensures a.HeadAction? ==> NoticesOf(subs, a) == [Notice(loop.headsId, a)]
    ensures a.LogAction? ==> NoticesOf(subs, a) in {[], [Notice(loop.logsId, a)]}
  {
    hide WatchesWhitelist;
    match a
    case HeadAction(h) => HeadNotices(subs, loop, h);
    case LogAction(log) => LogNotices(subs, loop, log);
  }

  lemma NoticedMore(ms: seq<Message>, actions: seq<Action>, a: Action, m: Message, loop: Loop)
    requires WellNoticed(ms, actions, loop) && UnderOwnHead(actions + [a])
    requires m == Notice(if a.HeadAction? then loop.headsId else loop.logsId, a)
    ensures WellNoticed(ms + [m], actions + [a], loop)
  {
    var all := ms + [m];
    assert all[..|ms|] == ms && (actions + [a])[..|actions|] == actions && (actions + [a])[|actions|] == a;
    assert ByLoop(all, loop);
    assert ResultsOf(all) == ResultsOf(ms) + [a];
    SubsequencePush(ResultsOf(ms), actions, a);
    forall k | 0 <= k < |all| && LogOf(all[k]).Some?
      ensures LastHead(all[..k]).Some? && LastHead(all[..k]).value.number == LogOf(all[k]).value.blockNumber
    {
      if k < |ms| {
        assert all[..k] == ms[..k] && all[k] == ms[k];
      }
    }
  }

  lemma NoticedLess(ms: seq<Message>, actions: seq<Action>, a: Action, loop: Loop)
    requires WellNoticed(ms, actions, loop) && a.LogAction?
    ensures WellNoticed(ms, actions + [a], loop)
  {
    assert (actions + [a])[..|actions|] == actions;
    SubsequenceGrow(ResultsOf(ms), actions, a);
  }

  lemma {:induction false} NoticesAreWell(subs: seq<Subscription>, actions: seq<Action>, loop: Loop)
    requires WatchesWhitelist(subs, loop) && UnderOwnHead(actions)
    ensures WellNoticed(NoticesOfAll(subs, actions), actions, loop)
  {
    hide WatchesWhitelist, WellNoticed, UnderOwnHead;
    if actions == [] {
      NothingNoticed(loop);
    } else {
      var front, a := actions[..|actions| - 1], actions[|actions| - 1];
      assert actions == front + [a];
      UnderOwnHeadPrefix(front, a);
      NoticesAreWell(subs, front, loop);
      OneNotice(subs, a, loop);
      if NoticesOf(subs, a) == [] {
        NoticedLess(NoticesOfAll(subs, front), front, a, loop);
        assert NoticesOfAll(subs, actions) == NoticesOfAll(subs, front);
      } else {
        NoticedMore(NoticesOfAll(subs, front), front, a, NoticesOf(subs, a)[0], loop);
      }
    }
  }

  lemma NothingNoticed(loop: Loop)
    ensures WellNoticed([], [], loop)
  {
  }

  lemma UnderOwnHeadPrefix(front: seq<Action>, a: Action)
    requires UnderOwnHead(front + [a])
    ensures UnderOwnHead(front)
  {
    var all := front + [a];
    forall k | 0 <= k < |front| && front[k].LogAction?
      ensures LatestHead(front[..k]).Some? && LatestHead(front[..k]).value.number == front[k].log.blockNumber
    {
      assert all[..k] == front[..k] && all[k] == front[k];
    }
  }

  // Subsequences.

  lemma {:induction false} SubsequenceHas<T>(a: seq<T>, b: seq<T>, i: nat) returns (j: nat)
    requires IsSubsequence(a, b) && i < |a|
    ensures j < |b| && b[j] == a[i]
    decreases |b|
  {
    if a[|a| - 1] == b[|b| - 1] {
      if i == |a| - 1 {
        j := |b| - 1;
      } else {
        j := SubsequenceHas(a[..|a| - 1], b[..|b| - 1], i);
      }
    } else {
      j := SubsequenceHas(a, b[..|b| - 1], i);
    }
  }

  /** Where an element stands in the longer sequence, and what is before it. */
  lemma {:induction false} SubsequenceAt<T>(a: seq<T>, b: seq<T>, k: nat) returns (j: nat)
    requires IsSubsequence(a, b) && k < |a|
    ensures j < |b| && b[j] == a[k] && IsSubsequence(a[..k], b[..j])
    decreases |b|
  {
    var front := b[..|b| - 1];
    if a[|a| - 1] == b[|b| - 1] {
      if k == |a| - 1 {
        j := |b| - 1;
      } else {
        j := SubsequenceAt(a[..|a| - 1], front, k);
        assert a[..|a| - 1][..k] == a[..k] && front[..j] == b[..j];
      }
    } else {
      j := SubsequenceAt(a, front, k);
      assert front[..j] == b[..j];
    }
  }

  lemma {:induction false} SubsequenceOrdered(a: seq<Action>, b: seq<Action>)
    requires IsSubsequence(a, b) && Ordered(b)
    ensures Ordered(a)
    decreases |b|
  {
    hide InOrder;
    if a != [] {
      var front, last := b[..|b| - 1], b[|b| - 1];
      if a[|a| - 1] == last {
        SubsequenceOrdered(a[..|a| - 1], front);
        forall i | 0 <= i < |a| - 1 ensures InOrder(a[i], last) {
          var j := SubsequenceHas(a[..|a| - 1], front, i);
          assert b[j] == a[i];
        }
        OrderedConcat(a[..|a| - 1], [last]);
        assert a == a[..|a| - 1] + [last];
      } else {
        SubsequenceOrdered(a, front);
      }
    }
  }

  lemma ResultsPush(ms: seq<Message>, m: Message, loop: Loop)
    requires ByLoop(ms + [m], loop)
    ensures ByLoop(ms, loop) && m.Notice? && ResultsOf(ms + [m]) == ResultsOf(ms) + [m.result]
  {
    var all := ms + [m];
    assert all[|ms|] == m && forall k :: 0 <= k < |ms| ==> all[k] == ms[k];
  }

  lemma ByLoopPush(ms: seq<Message>, m: Message, front: seq<Message>, loop: Loop)
    requires ByLoop(ms, loop) && ByLoop(front + [m], loop)
    ensures ByLoop(ms + [m], loop)
  {
    assert (front + [m])[|front|] == m;
  }

  lemma {:induction false} SubsequenceOfResults(a: seq<Message>, b: seq<Message>, loop: Loop)
    requires IsSubsequence(a, b) && ByLoop(b, loop)
    ensures ByLoop(a, loop) && IsSubsequence(ResultsOf(a), ResultsOf(b))
    decreases |b|
  {
    hide ResultsOf;
    if a == [] {
      NoResults(loop);
    } else {
      var front, last := b[..|b| - 1], b[|b| - 1];
      assert b == front + [last];
      ResultsPush(front, last, loop);
      if a[|a| - 1] == last {
        var sent := a[..|a| - 1];
        assert a == sent + [last];
        SubsequenceOfResults(sent, front, loop);
        ByLoopPush(sent, last, front, loop);
        ResultsPush(sent, last, loop);
        SubsequencePush(ResultsOf(sent), ResultsOf(front), last.result);
      } else {
        SubsequenceOfResults(a, front, loop);
        SubsequenceGrow(ResultsOf(a), ResultsOf(front), last.result);
      }
    }
  }

  lemma NoResults(loop: Loop)
    ensures ByLoop([], loop) && ResultsOf([]) == []
  {
  }

  lemma {:induction false} SubsequenceTake<T>(a: seq<T>, b: seq<T>, c: seq<T>)
    requires IsSubsequence(a + b, c)
    ensures IsSubsequence(a, c)
    decreases |b|
  {
    if b == [] {
      assert a + b == a;
    } else {
      SubsequenceDropLast(a + b, c);
      assert (a + b)[..|a + b| - 1] == a + b[..|b| - 1];
      SubsequenceTake(a, b[..|b| - 1], c);
    }
  }

  lemma {:induction false} SubsequenceOfNotices(a: seq<Message>, b: seq<Message>)
    requires IsSubsequence(a, b)
    ensures IsSubsequence(Notices(a), Notices(b))
    decreases |b|
  {
    if a != [] {
      var front, last := b[..|b| - 1], b[|b| - 1];
      assert b == front + [last];
      NoticesPush(front, last);
      assert Notices(front) + [] == Notices(front);
      if a[|a| - 1] == last {
        SubsequenceOfNotices(a[..|a| - 1], front);
        assert a == a[..|a| - 1] + [last];
        NoticesPush(a[..|a| - 1], last);
        assert Notices(a[..|a| - 1]) + [] == Notices(a[..|a| - 1]);
        if last.Notice? {
          SubsequencePush(Notices(a[..|a| - 1]), Notices(front), last);
        }
      } else {
        SubsequenceOfNotices(a, front);
        if last.Notice? {
          SubsequenceGrow(Notices(a), Notices(front), last);
        }
      }
    }
  }

  // The last head among what was sent.

  lemma {:induction false} LastHeadAt(ms: seq<Message>) returns (p: nat)
    requires LastHead(ms).Some?
    ensures p < |ms| && HeadOf(ms[p]) == LastHead(ms)
    ensures forall i :: p < i < |ms| ==> HeadOf(ms[i]).None?
  {
    if HeadOf(ms[|ms| - 1]).Some? {
      p := |ms| - 1;
    } else {
      p := LastHeadAt(ms[..|ms| - 1]);
    }
  }

  lemma {:induction false} HeadMeansLast(ms: seq<Message>, i: nat)
    requires i < |ms| && HeadOf(ms[i]).Some?
    ensures LastHead(ms).Some?
  {
    if HeadOf(ms[|ms| - 1]).None? {
      HeadMeansLast(ms[..|ms| - 1], i);
    }
  }

  ghost predicate Played(ms: seq<Message>, loop: Loop) {
    ByLoop(ms, loop) && Ordered(ResultsOf(ms))
  }

  lemma HeadsRise(ms: seq<Message>, loop: Loop, i: nat, j: nat)
    requires Played(ms, loop) && i < j < |ms| && HeadOf(ms[i]).Some? && HeadOf(ms[j]).Some?
    ensures var g, h := Number(HeadOf(ms[i]).value), Number(HeadOf(ms[j]).value);
            g.Some? && h.Some? && g.value < h.value
  {
    assert InOrder(ResultsOf(ms)[i], ResultsOf(ms)[j]);
  }

  predicate Earlier(g: Header, h: Header) {
    Number(g).Some? && Number(h).Some? && Number(g).value < Number(h).value
  }

  lemma LastHeadGreatest(ms: seq<Message>, loop: Loop, i: nat)
    requires Played(ms, loop) && i < |ms| && HeadOf(ms[i]).Some?
    ensures LastHead(ms).Some?
    ensures HeadOf(ms[i]) == LastHead(ms) || Earlier(HeadOf(ms[i]).value, LastHead(ms).value)
  {
    HeadMeansLast(ms, i);
    var p := LastHeadAt(ms);
    if i < p {
      HeadsRise(ms, loop, i, p);
    }
  }

  lemma PlayedSubsequence(a: seq<Message>, b: seq<Message>, loop: Loop)
    requires IsSubsequence(a, b) && Played(b, loop)
    ensures Played(a, loop)
  {
    SubsequenceOfResults(a, b, loop);
    SubsequenceOrdered(ResultsOf(a), ResultsOf(b));
  }

  lemma PlayedPrefix(ms: seq<Message>, loop: Loop, n: nat)
    requires Played(ms, loop) && n <= |ms|
    ensures Played(ms[..n], loop)
  {
    hide InOrder;
    assert forall k :: 0 <= k < n ==> ResultsOf(ms[..n])[k] == ResultsOf(ms)[k];
  }

  /** A head that is the last of the whole and was sent is the last that was sent. */
  lemma {:induction false} LastHeadKept(a: seq<Message>, b: seq<Message>, loop: Loop, i: nat)
    requires IsSubsequence(a, b) && Played(b, loop) && i < |a|
    requires LastHead(b).Some? && HeadOf(a[i]) == LastHead(b)
    ensures LastHead(a) == LastHead(b)
  {
    hide Played;
    PlayedSubsequence(a, b, loop);
    LastHeadGreatest(a, loop, i);
    var p := LastHeadAt(a);
    var j := SubsequenceHas(a, b, p);
    LastHeadGreatest(b, loop, j);
  }

  /** What a log that was sent finds as the last head before it: its own block's exactly if that was sent,
      and otherwise an earlier one or none. */
  lemma {:induction false} LastHeadBefore(a: seq<Message>, b: seq<Message>, loop: Loop, k: nat) returns (j: nat)
    requires IsSubsequence(a, b) && Played(b, loop) && OwnHeads(b) && k < |a| && LogOf(a[k]).Some?
    ensures j < |b| && b[j] == a[k] && LastHead(b[..j]).Some?
    ensures LastHead(b[..j]).value.number == LogOf(a[k]).value.blockNumber
    ensures LastHead(a[..k]) == LastHead(b[..j]) <==> OwnHeadSent(a, k)
    ensures LastHead(a[..k]).Some? ==>
              LastHead(a[..k]) == LastHead(b[..j]) || Earlier(LastHead(a[..k]).value, LastHead(b[..j]).value)
  {
    hide Played;
    j := SubsequenceAt(a, b, k);
    PlayedPrefix(b, loop, j);
    if LastHead(a[..k]).Some? {
      var p := LastHeadAt(a[..k]);
      var q := SubsequenceHas(a[..k], b[..j], p);
      LastHeadGreatest(b[..j], loop, q);
    }
    if OwnHeadSent(a, k) {
      var i :| 0 <= i < k && HeadOf(a[i]).Some? && HeadOf(a[i]).value.number == LogOf(a[k]).value.blockNumber;
      assert a[..k][i] == a[i];
      var q := SubsequenceHas(a[..k], b[..j], i);
      LastHeadGreatest(b[..j], loop, q);
      LastHeadKept(a[..k], b[..j], loop, i);
    }
  }

  lemma {:induction false} ClockIsLastHead(ms: seq<Message>, loop: Loop)
    requires ByLoop(ms, loop) && loop.headsId != loop.logsId && !Consume(ms, loop).crashed
    ensures LastHead(ms).Some? ==> HeadTime(loop.heads, LastHead(ms).value.timestamp).Some?
    ensures Consume(ms, loop).clock
         == if LastHead(ms).None? then 0 else HeadTime(loop.heads, LastHead(ms).value.timestamp).value
  {
    hide OnLog, HeadTime;
    if ms != [] {
      ClockIsLastHead(ms[..|ms| - 1], loop);
      OnLogKeepsClock(Consume(ms[..|ms| - 1], loop), ms[|ms| - 1], loop);
    }
  }

  lemma OnLogKeepsClock(p: Progress, m: Message, loop: Loop)
    ensures m.Notice? && m.result.LogAction? ==>
              OnLog(p, m.result.log, loop.whitelist).clock == p.clock
              && OnLog(p, m.result.log, loop.whitelist).crashed == p.crashed
  {
  }

  // Every replay.

  /** Client `i` has both subscriptions in `s0`, before the first block, and keeps them; in `s` the replay may
      still be going on, and its queue may have lost anything. */
  ghost predicate AnyReplay(ceiling: nat, script: seq<Action>, before: seq<Step>, s0: State, steps: seq<Step>,
                            s: State, i: nat, loop: Loop)
  {
    && ceiling > 0 && Run(Start(ceiling, script), before) == Some(s0)
    && s0.played == 0 && Live(s0, i) && WatchesWhitelist(s0.members[i].c.subs, loop)
    && Run(s0, steps) == Some(s) && i < |s.members| && (forall k :: 0 <= k < |steps| ==> LeavesAlone(steps[k], i))
  }

  lemma {:induction false} SubsequenceExtend<T>(a: seq<T>, b: seq<T>, c: seq<T>)
    requires IsSubsequence(a, b)
    ensures IsSubsequence(a, b + c)
  {
    if c == [] {
      assert b + c == b;
    } else {
      SubsequenceExtend(a, b, c[..|c| - 1]);
      SubsequenceGrow(a, b + c[..|c| - 1], c[|c| - 1]);
      assert b + c == b + c[..|c| - 1] + [c[|c| - 1]];
    }
  }

  lemma SentIsSubsequence(ceiling: nat, script: seq<Action>, before: seq<Step>, s0: State, steps: seq<Step>, s: State,
                          i: nat, loop: Loop)
    requires AnyReplay(ceiling, script, before, s0, steps, s, i, loop)
    ensures IsSubsequence(Notices(s.members[i].c.sent), NoticesOfAll(s0.members[i].c.subs, script))
  {
    hide WatchesWhitelist, Quiet, LeavesAlone, Following, IsSubsequence, Notices, NoticesOfAll, Run;
    var c, subs := s.members[i].c, s0.members[i].c.subs;
    StartIsQuiet(ceiling, script);
    QuietIsFollowing(Start(ceiling, script), before, s0, i);
    RunFollows(s0, steps, s, i, subs);
    FollowingIsPrefix(s, i, subs);
    RunKeepsInv(Start(ceiling, script), before, s0);
    RunKeepsInv(s0, steps, s);
    SentAmongEnqueued(c, s.ceiling);
    SubsequenceOfNotices(c.sent, c.enqueued);
    NoticesOfConcat(subs, script[..s.played], script[s.played..]);
    SubsequenceExtend(Notices(c.sent), NoticesOfAll(subs, script[..s.played]), NoticesOfAll(subs, script[s.played..]));
  }

  lemma FollowingIsPrefix(s: State, i: nat, subs: seq<Subscription>)
    requires Following(s, i, subs)
    ensures i < |s.members| && s.played <= |s.script| && s.script == s.script[..s.played] + s.script[s.played..]
    ensures Notices(s.members[i].c.enqueued) == NoticesOfAll(subs, s.script[..s.played])
  {
  }

  lemma SentAmongEnqueued(c: ClientState, ceiling: nat)
    requires ClientInv(c, ceiling)
    ensures IsSubsequence(c.sent, c.enqueued)
  {
    hide IsSubsequence, ClientInv;
    ClientFacts(c, ceiling);
    assert c.sent + (InFlight(c) + c.queue) == c.sent + InFlight(c) + c.queue;
    SubsequenceTake(c.sent, InFlight(c) + c.queue, c.enqueued);
  }

  lemma StartIsQuiet(ceiling: nat, script: seq<Action>)
    ensures Quiet(Start(ceiling, script)) && (ceiling > 0 ==> ServerRuns.Inv(Start(ceiling, script)))
  {
  }

  /** The notifications of a fixture that is sorted, as `load_events` leaves it. */
  lemma FixtureIsPlayed(events: seq<Row>, epoch: string -> Option<int>, subs: seq<Subscription>, loop: Loop)
    requires SortedByKey(events) && WatchesWhitelist(subs, loop)
    ensures var ms := NoticesOfAll(subs, Script(Groups(events), epoch));
            && Played(ms, loop) && OwnHeads(ms)
            && forall k :: 0 <= k < |ms| ==> ms[k].result in Script(Groups(events), epoch)
  {
    hide WatchesWhitelist, SortedByKey, UnderOwnHead, Rising;
    var script := Script(Groups(events), epoch);
    var ms := NoticesOfAll(subs, script);
    LogsFollowTheirHead(events, epoch);
    NoticesAreWell(subs, script, loop);
    SortedRises(events);
    ScriptOrdered(Groups(events), epoch);
    SubsequenceOrdered(ResultsOf(ms), script);
    forall k | 0 <= k < |ms| ensures ms[k].result in script {
      var j := SubsequenceHas(ResultsOf(ms), script, k);
    }
  }

  lemma {:induction false} GroupOfHead(groups: seq<Group>, epoch: string -> Option<int>, h: Header) returns (i: nat)
    requires HeadAction(h) in Script(groups, epoch)
    ensures i < |groups| && BuildBlockHeader(groups[i].number, groups[i].timestamp, epoch) == Some(h)
  {
    var k :| 0 <= k < |Script(groups, epoch)| && Script(groups, epoch)[k] == HeadAction(h);
    ScriptFromGroups(groups, epoch, k);
    i :| 0 <= i < |groups| && BuildBlockHeader(groups[i].number, groups[i].timestamp, epoch) == Some(h);
  }

  lemma SameNumberSameGroup(groups: seq<Group>, i: nat, j: nat)
    requires Rising(groups) && i < |groups| && j < |groups| && Hex(groups[i].number) == Hex(groups[j].number)
    ensures i == j
  {
    ReadHexOfHex(groups[i].number);
    ReadHexOfHex(groups[j].number);
  }

  /** Under which time a log that was sent is stamped, in any replay of a sorted fixture: under that of the
      last head sent before it, which is never of a later block, and of its own exactly if its own head was
      sent. Without any head the clock is still zero and the log is skipped. */
  lemma {:induction false} StampOfSent(
      ceiling: nat, events: seq<Row>, epoch: string -> Option<int>, before: seq<Step>, s0: State, steps: seq<Step>,
      s: State, i: nat, loop: Loop, k: nat)
    returns (own: Group, last: Option<Group>)
    requires SortedByKey(events)
    requires AnyReplay(ceiling, Script(Groups(events), epoch), before, s0, steps, s, i, loop)
    requires k < |Notices(s.members[i].c.sent)| && LogOf(Notices(s.members[i].c.sent)[k]).Some?
    ensures var ms := Notices(s.members[i].c.sent);
            && own in Groups(events) && epoch(own.timestamp).Some?
            && LogOf(ms[k]).value.blockNumber == Hex(own.number)
            && (last == Some(own) <==> OwnHeadSent(ms, k))
            && (last.Some? ==>
                  last.value in Groups(events) && epoch(last.value.timestamp).Some?
                  && last.value.number <= own.number)
            && (!Consume(ms[..k], loop).crashed ==>
                  Consume(ms[..k], loop).clock == if last.None? then 0 else epoch(last.value.timestamp).value)
  {
    hide AnyReplay, SortedByKey, WatchesWhitelist, Played, OwnHeads, Rising, OwnHeadSent, Consume, ByLoop, Script;
    ReplayFacts(ceiling, events, epoch, before, s0, steps, s, i, loop);
    var all := NoticesOfAll(s0.members[i].c.subs, Script(Groups(events), epoch));
    PlayedByLoop(all, loop);
    NoticesOnly(all, loop);
    own, last := StampAmong(Notices(s.members[i].c.sent), all, Groups(events), epoch, loop, k);
    StampIsTime(Notices(s.members[i].c.sent)[..k], loop, Groups(events), epoch, last);
  }

  lemma NoticesOnly(ms: seq<Message>, loop: Loop)
    requires ByLoop(ms, loop)
    ensures forall k :: 0 <= k < |ms| ==> ms[k].Notice?
  {
  }

  /** The block of a log that was sent and the block of the last head before it. */
  lemma {:induction false} StampAmong(
      ms: seq<Message>, all: seq<Message>, groups: seq<Group>, epoch: string -> Option<int>, loop: Loop, k: nat)
    returns (own: Group, last: Option<Group>)
    requires IsSubsequence(ms, all) && Played(all, loop) && OwnHeads(all) && Rising(groups)
    requires forall k :: 0 <= k < |all| ==> all[k].Notice? && all[k].result in Script(groups, epoch)
    requires k < |ms| && LogOf(ms[k]).Some?
    ensures own in groups && epoch(own.timestamp).Some? && LogOf(ms[k]).value.blockNumber == Hex(own.number)
    ensures last == Some(own) <==> OwnHeadSent(ms, k)
    ensures last.None? <==> LastHead(ms[..k]).None?
    ensures last.Some? ==>
              last.value in groups && epoch(last.value.timestamp).Some? && last.value.number <= own.number
              && BuildBlockHeader(last.value.number, last.value.timestamp, epoch) == LastHead(ms[..k])
  {
    hide Played, OwnHeads, Rising, OwnHeadSent, Script, Hex;
    var j := LastHeadBefore(ms, all, loop, k);
    var o := OwnGroup(all, groups, epoch, j);
    own := groups[o];
    if LastHead(ms[..k]).None? {
      last := None;
    } else {
      var l := LastGroup(ms, all, groups, epoch, k);
      last := Some(groups[l]);
      ReadHexOfHex(own.number);
      ReadHexOfHex(groups[l].number);
      if Hex(groups[l].number) == Hex(own.number) {
        SameNumberSameGroup(groups, l, o);
      }
    }
  }

  lemma {:induction false} LastGroup(
      ms: seq<Message>, all: seq<Message>, groups: seq<Group>, epoch: string -> Option<int>, k: nat)
    returns (l: nat)
    requires IsSubsequence(ms, all) && k <= |ms| && LastHead(ms[..k]).Some?
    requires forall k :: 0 <= k < |all| ==> all[k].Notice? && all[k].result in Script(groups, epoch)
    ensures l < |groups|
    ensures BuildBlockHeader(groups[l].number, groups[l].timestamp, epoch) == LastHead(ms[..k])
  {
    hide Script;
    var p := LastHeadAt(ms[..k]);
    var q := SubsequenceHas(ms, all, p);
    l := GroupOfHead(groups, epoch, LastHead(ms[..k]).value);
  }

  lemma ReplayFacts(ceiling: nat, events: seq<Row>, epoch: string -> Option<int>, before: seq<Step>, s0: State,
                    steps: seq<Step>, s: State, i: nat, loop: Loop)
    requires SortedByKey(events)
    requires AnyReplay(ceiling, Script(Groups(events), epoch), before, s0, steps, s, i, loop)
    ensures i < |s0.members| && i < |s.members|
    ensures var ms := Notices(s.members[i].c.sent);
            var all := NoticesOfAll(s0.members[i].c.subs, Script(Groups(events), epoch));
            && IsSubsequence(ms, all) && Played(all, loop) && OwnHeads(all) && Rising(Groups(events))
            && loop.headsId != loop.logsId && WatchesWhitelist(s0.members[i].c.subs, loop)
            && forall k :: 0 <= k < |all| ==> all[k].result in Script(Groups(events), epoch)
    ensures var ms := Notices(s.members[i].c.sent);
            && Played(ms, loop) && forall k :: 0 <= k <= |ms| ==> ByLoop(ms[..k], loop)
  {
    hide SortedByKey, Played, OwnHeads, Rising, Ordered;
    SentIsSubsequence(ceiling, Script(Groups(events), epoch), before, s0, steps, s, i, loop);
    FixtureIsPlayed(events, epoch, s0.members[i].c.subs, loop);
    SortedRises(events);
    var ms := Notices(s.members[i].c.sent);
    PlayedSubsequence(ms, NoticesOfAll(s0.members[i].c.subs, Script(Groups(events), epoch)), loop);
    forall k | 0 <= k <= |ms| ensures ByLoop(ms[..k], loop) {
      PlayedPrefix(ms, loop, k);
      PlayedByLoop(ms[..k], loop);
    }
  }

  lemma PlayedByLoop(ms: seq<Message>, loop: Loop)
    requires Played(ms, loop)
    ensures ByLoop(ms, loop)
  {
  }

  lemma {:induction false} OwnGroup(
      all: seq<Message>, groups: seq<Group>, epoch: string -> Option<int>, j: nat)
    returns (o: nat)
    requires j < |all| && LastHead(all[..j]).Some?
    requires forall k :: 0 <= k < |all| ==> all[k].Notice? && all[k].result in Script(groups, epoch)
    ensures o < |groups|
    ensures BuildBlockHeader(groups[o].number, groups[o].timestamp, epoch) == LastHead(all[..j])
  {
    var p := LastHeadAt(all[..j]);
    o := GroupOfHead(groups, epoch, LastHead(all[..j]).value);
  }

  lemma StampIsTime(ms: seq<Message>, loop: Loop, groups: seq<Group>, epoch: string -> Option<int>, last: Option<Group>)
    requires ByLoop(ms, loop) && loop.headsId != loop.logsId
    requires last.None? <==> LastHead(ms).None?
    requires last.Some? ==> BuildBlockHeader(last.value.number, last.value.timestamp, epoch) == LastHead(ms)
    ensures !Consume(ms, loop).crashed ==>
              Consume(ms, loop).clock == if last.None? then 0 else epoch(last.value.timestamp).value
  {
    hide Consume, ByLoop;
    if !Consume(ms, loop).crashed {
      ClockIsLastHead(ms, loop);
      if last.Some? {
        HeadTimeOfHex(loop.heads, epoch(last.value.timestamp).value);
      }
    }
  }

  predicate DistinctTimes(groups: seq<Group>, epoch: string -> Option<int>) {
    && (forall i :: 0 <= i < |groups| ==> epoch(groups[i].timestamp) != Some(0))
    && (forall i, j :: 0 <= i < j < |groups| && epoch(groups[i].timestamp).Some? ==>
          epoch(groups[i].timestamp) != epoch(groups[j].timestamp))
  }

  /** Where no two blocks share their time and none is the epoch, a log that was sent is stamped with its own
      block's time exactly if its own head was sent. */
  lemma {:induction false} StampIsOwnIff(
      ceiling: nat, events: seq<Row>, epoch: string -> Option<int>, before: seq<Step>, s0: State, steps: seq<Step>,
      s: State, i: nat, loop: Loop, k: nat)
    returns (own: Group)
    requires SortedByKey(events) && DistinctTimes(Groups(events), epoch)
    requires AnyReplay(ceiling, Script(Groups(events), epoch), before, s0, steps, s, i, loop)
    requires k < |Notices(s.members[i].c.sent)| && LogOf(Notices(s.members[i].c.sent)[k]).Some?
    requires !Consume(Notices(s.members[i].c.sent)[..k], loop).crashed
    ensures var ms := Notices(s.members[i].c.sent);
            && own in Groups(events) && LogOf(ms[k]).value.blockNumber == Hex(own.number)
            && (epoch(own.timestamp) == Some(Consume(ms[..k], loop).clock) <==> OwnHeadSent(ms, k))
  {
    hide AnyReplay, SortedByKey, OwnHeadSent, Consume, LogOf;
    var last: Option<Group>;
    own, last := StampOfSent(ceiling, events, epoch, before, s0, steps, s, i, loop, k);
    if last.Some? && last.value != own {
      var groups := Groups(events);
      var l :| 0 <= l < |groups| && groups[l] == last.value;
      var o :| 0 <= o < |groups| && groups[o] == own;
      assert l < o || o < l;
    }
  }

  // What is still delivered.

  ghost predicate Dated(ms: seq<Message>) {
    forall k :: 0 <= k < |ms| && HeadOf(ms[k]).Some? ==> DatedHead(HeadOf(ms[k]).value)
  }

  ghost predicate DatedHead(h: Header) {
    exists t: int :: h.timestamp == Hex(t)
  }

  function Numbers(loop: Loop): Loop {
    loop.(heads := AsNumber)
  }

  lemma {:induction false} NumbersNeverCrash(ms: seq<Message>, loop: Loop)
    requires ByLoop(ms, loop) && Dated(ms) && loop.headsId != loop.logsId
    ensures !Consume(ms, Numbers(loop)).crashed
  {
    hide OnLog, HeadTime;
    if ms != [] {
      var last := ms[|ms| - 1];
      NumbersNeverCrash(ms[..|ms| - 1], loop);
      OnLogKeepsClock(Consume(ms[..|ms| - 1], Numbers(loop)), last, loop);
      if last.result.HeadAction? {
        assert DatedHead(HeadOf(last).value);
        var t: int :| last.result.header.timestamp == Hex(t);
        HeadTimeOfHex(AsNumber, t);
      }
    }
  }

  /** A log before which its own head was sent finds the clock of the whole replay. */
  lemma SameClock(a: seq<Message>, b: seq<Message>, m: Message, loop: Loop)
    requires IsSubsequence(a, b) && Played(b + [m], loop) && OwnHeads(b + [m]) && Dated(b) && LogOf(m).Some?
    requires loop.headsId != loop.logsId && OwnHeadSent(a + [m], |a|) && !Consume(a, loop).crashed
    ensures Consume(a, loop).clock == Consume(b, Numbers(loop)).clock
  {
    hide Consume, InOrder, HeadTime, Dated, Played;
    var all, n := b + [m], LogOf(m).value.blockNumber;
    assert all[..|b|] == b && all[|b|] == m;
    PlayedPrefix(all, loop, |b|);
    assert LastHead(b).Some? && LastHead(b).value.number == n;
    var i :| 0 <= i < |a| && HeadOf((a + [m])[i]).Some? && HeadOf((a + [m])[i]).value.number == n;
    var q := SubsequenceHas(a, b, i);
    LastHeadGreatest(b, loop, q);
    LastHeadKept(a, b, loop, i);
    PlayedSubsequence(a, b, loop);
    PlayedByLoop(a, loop);
    PlayedByLoop(b, loop);
    NumbersNeverCrash(b, loop);
    ClockIsLastHead(a, loop);
    ByLoopOfNumbers(b, loop);
    ClockIsLastHead(b, Numbers(loop));
    LastIsDated(b);
    var t: int :| LastHead(b).value.timestamp == Hex(t);
    HeadTimeOfHex(loop.heads, t);
    HeadTimeOfHex(AsNumber, t);
  }

  lemma ByLoopOfNumbers(ms: seq<Message>, loop: Loop)
    requires ByLoop(ms, loop)
    ensures ByLoop(ms, Numbers(loop))
  {
  }

  lemma LastIsDated(ms: seq<Message>)
    requires Dated(ms) && LastHead(ms).Some?
    ensures DatedHead(LastHead(ms).value)
  {
    var p := LastHeadAt(ms);
  }

  lemma DispatchLog(p: Progress, m: Message, loop: Loop)
    requires LogOf(m).Some? && m.sub == loop.logsId != loop.headsId
    ensures Dispatch(p, m, loop) == if p.crashed then p else OnLog(p, m.result.log, loop.whitelist)
  {
  }

  /** What one log adds to the events depends on the clock alone. */
  function Gain(clock: int, log: Log, whitelist: Whitelist): seq<Tick> {
    if clock == 0 then []
    else match RouteValidated(log, whitelist, clock)
         case Ok(Some(tick)) => [tick]
         case _ => []
  }

  lemma OnLogGains(p: Progress, log: Log, whitelist: Whitelist)
    ensures OnLog(p, log, whitelist).ticks == p.ticks + Gain(p.clock, log, whitelist)
  {
    assert p.ticks + [] == p.ticks;
  }

  lemma ConsumePush(ms: seq<Message>, m: Message, loop: Loop)
    ensures Consume(ms + [m], loop) == Dispatch(Consume(ms, loop), m, loop)
  {
    assert (ms + [m])[..|ms|] == ms;
  }

  /** One more message that was sent. */
  lemma TicksMore(a: seq<Message>, b: seq<Message>, m: Message, loop: Loop)
    requires IsSubsequence(a, b) && Played(b + [m], loop) && OwnHeads(b + [m]) && Dated(b + [m])
    requires loop.headsId != loop.logsId && (LogOf(m).Some? ==> OwnHeadSent(a + [m], |a|))
    requires IsSubsequence(Consume(a, loop).ticks, Consume(b, Numbers(loop)).ticks)
    ensures IsSubsequence(Consume(a + [m], loop).ticks, Consume(b + [m], Numbers(loop)).ticks)
  {
    hide Consume, OnLog, Played, OwnHeads, RouteValidated;
    ConsumePush(a, m, loop);
    ConsumePush(b, m, Numbers(loop));
    PlayedByLoop(b + [m], loop);
    assert (b + [m])[|b|] == m && forall k :: 0 <= k < |b| ==> (b + [m])[k] == b[k];
    var p, q := Consume(a, loop), Consume(b, Numbers(loop));
    NumbersNeverCrash(b, loop);
    if LogOf(m).Some? {
      DispatchLog(p, m, loop);
      DispatchLog(q, m, Numbers(loop));
      OnLogGains(q, m.result.log, loop.whitelist);
      if p.crashed {
        SubsequenceExtend(p.ticks, q.ticks, Gain(q.clock, m.result.log, loop.whitelist));
      } else {
        SameClock(a, b, m, loop);
        OnLogGains(p, m.result.log, loop.whitelist);
        SubsequenceAppend(p.ticks, q.ticks, Gain(q.clock, m.result.log, loop.whitelist));
      }
    }
  }

  /** A message that was lost. */
  lemma TicksLess(a: seq<Message>, b: seq<Message>, m: Message, loop: Loop)
    requires ByLoop(b + [m], loop) && loop.headsId != loop.logsId
    requires IsSubsequence(Consume(a, loop).ticks, Consume(b, Numbers(loop)).ticks)
    ensures IsSubsequence(Consume(a, loop).ticks, Consume(b + [m], Numbers(loop)).ticks)
  {
    hide Consume, OnLog, RouteValidated;
    ConsumePush(b, m, Numbers(loop));
    assert (b + [m])[|b|] == m;
    if LogOf(m).Some? {
      var q := Consume(b, Numbers(loop));
      DispatchLog(q, m, Numbers(loop));
      OnLogGains(q, m.result.log, loop.whitelist);
      SubsequenceExtend(Consume(a, loop).ticks, q.ticks, Gain(q.clock, m.result.log, loop.whitelist));
    }
  }

  ghost predicate AllHeadsSent(ms: seq<Message>) {
    forall k :: 0 <= k < |ms| && LogOf(ms[k]).Some? ==> OwnHeadSent(ms, k)
  }

  lemma HeadsSentPrefix(ms: seq<Message>, m: Message)
    requires AllHeadsSent(ms + [m])
    ensures AllHeadsSent(ms)
    ensures LogOf(m).Some? ==> OwnHeadSent(ms + [m], |ms|)
  {
    var all := ms + [m];
    forall k | 0 <= k < |ms| && LogOf(ms[k]).Some? ensures OwnHeadSent(ms, k) {
      assert all[k] == ms[k];
      var i :| 0 <= i < k && HeadOf(all[i]).Some? && HeadOf(all[i]).value.number == LogOf(all[k]).value.blockNumber;
      assert all[i] == ms[i];
    }
    assert all[|ms|] == m;
  }

  lemma ReplayPrefix(b: seq<Message>, m: Message, loop: Loop)
    requires Played(b + [m], loop) && OwnHeads(b + [m]) && Dated(b + [m])
    ensures Played(b, loop) && OwnHeads(b) && Dated(b)
  {
    var all := b + [m];
    PlayedPrefix(all, loop, |b|);
    assert all[..|b|] == b;
    forall k | 0 <= k < |b| && LogOf(b[k]).Some?
      ensures LastHead(b[..k]).Some? && LastHead(b[..k]).value.number == LogOf(b[k]).value.blockNumber
    {
      assert all[k] == b[k] && all[..k] == b[..k];
    }
    forall k | 0 <= k < |b| && HeadOf(b[k]).Some? ensures DatedHead(HeadOf(b[k]).value) {
      assert all[k] == b[k];
    }
  }

  lemma {:induction false} TicksSubsequence(a: seq<Message>, b: seq<Message>, loop: Loop)
    requires IsSubsequence(a, b) && Played(b, loop) && OwnHeads(b) && Dated(b) && AllHeadsSent(a)
    requires loop.headsId != loop.logsId
    ensures IsSubsequence(Consume(a, loop).ticks, Consume(b, Numbers(loop)).ticks)
    decreases |b|
  {
    hide Played, OwnHeads, Dated, AllHeadsSent, Dispatch;
    if b == [] {
      assert a == [];
    } else {
      var front, m := b[..|b| - 1], b[|b| - 1];
      assert b == front + [m];
      ReplayPrefix(front, m, loop);
      if a != [] && a[|a| - 1] == m {
        var sent := a[..|a| - 1];
        assert a == sent + [m];
        HeadsSentPrefix(sent, m);
        TicksSubsequence(sent, front, loop);
        TicksMore(sent, front, m, loop);
      } else {
        TicksSubsequence(a, front, loop);
        PlayedByLoop(b, loop);
        TicksLess(a, front, m, loop);
      }
    }
  }

  lemma ScriptIsDated(ms: seq<Message>, groups: seq<Group>, epoch: string -> Option<int>)
    requires forall k :: 0 <= k < |ms| ==> ms[k].Notice? && ms[k].result in Script(groups, epoch)
    ensures Dated(ms)
  {
    forall k | 0 <= k < |ms| && HeadOf(ms[k]).Some? ensures DatedHead(HeadOf(ms[k]).value) {
      var i := GroupOfHead(groups, epoch, HeadOf(ms[k]).value);
      assert HeadOf(ms[k]).value.timestamp == Hex(epoch(groups[i].timestamp).value);
    }
  }

  /** Whatever logs were evicted: as long as the head of each log that was sent was sent too, everything
      delivered is what a clean replay delivers, under the same time and in the same order. */
  lemma {:induction false} KeptHeadsKeepStamps(
      ceiling: nat, events: seq<Row>, epoch: string -> Option<int>, before: seq<Step>, s0: State, steps: seq<Step>,
      s: State, i: nat, loop: Loop)
    requires SortedByKey(events)
    requires AnyReplay(ceiling, Script(Groups(events), epoch), before, s0, steps, s, i, loop)
    requires AllHeadsSent(Notices(s.members[i].c.sent))
    ensures IsSubsequence(Consume(s.members[i].c.sent, loop).ticks,
                          Delivered(Groups(events), loop.whitelist, epoch))
  {
    hide AnyReplay, SortedByKey, Played, OwnHeads, Rising, AllHeadsSent, Consume, Dated, Delivered, Script;
    ReplayFacts(ceiling, events, epoch, before, s0, steps, s, i, loop);
    var subs, ms := s0.members[i].c.subs, Notices(s.members[i].c.sent);
    var all := NoticesOfAll(subs, Script(Groups(events), epoch));
    PlayedByLoop(all, loop);
    ScriptIsDated(all, Groups(events), epoch);
    TicksSubsequence(ms, all, loop);
    SentConsumed(s.members[i].c.sent, loop);
    WatchesAsNumbers(subs, loop);
    ConsumeScript(Groups(events), epoch, subs, Numbers(loop));
  }

  lemma SentConsumed(sent: seq<Message>, loop: Loop)
    ensures Consume(sent, loop) == Consume(Notices(sent), loop)
  {
    ConsumeNotices(IDLE, sent, loop);
  }

  lemma WatchesAsNumbers(subs: seq<Subscription>, loop: Loop)
    requires WatchesWhitelist(subs, loop)
    ensures WatchesWhitelist(subs, Numbers(loop))
  {
  }

  // The order of arrival.

  function TickKey(t: Tick): (int, int) {
    (t.blockNumber, t.logIndex)
  }

  predicate TicksSorted(ticks: seq<Tick>) {
    forall i, j :: 0 <= i < j < |ticks| ==> KeyAtMost(TickKey(ticks[i]), TickKey(ticks[j]))
  }

  lemma RoutedKey(log: Log, whitelist: Whitelist, timestamp: int)
    ensures var r := RouteValidated(log, whitelist, timestamp);
            r.Ok? && r.value.Some? ==>
              LogKey(log) == Some(TickKey(r.value.value)) && r.value.value.timestamp == timestamp
  {
    hide UniswapAmounts, AaveAmounts, AaveAssets, DataBytes, MeetsSchema, ToInt;
  }

  ghost predicate TicksFromLogs(ticks: seq<Tick>, ms: seq<Message>) {
    forall t :: t in ticks ==>
      exists k :: 0 <= k < |ms| && LogOf(ms[k]).Some? && LogKey(LogOf(ms[k]).value) == Some(TickKey(t))
  }

  lemma {:induction false} TicksInOrder(ms: seq<Message>, loop: Loop)
    requires Played(ms, loop) && loop.headsId != loop.logsId
    ensures TicksSorted(Consume(ms, loop).ticks) && TicksFromLogs(Consume(ms, loop).ticks, ms)
  {
    hide Consume, Played, InOrder, KeyAtMost, RouteValidated, OnLog;
    if ms == [] {
      NothingConsumed(loop);
    } else {
      var front, m := ms[..|ms| - 1], ms[|ms| - 1];
      assert ms == front + [m];
      PlayedPrefix(ms, loop, |ms| - 1);
      PlayedByLoop(ms, loop);
      TicksInOrder(front, loop);
      ConsumePush(front, m, loop);
      FromMoreLogs(Consume(front, loop).ticks, front, m);
      if LogOf(m).Some? {
        DispatchLog(Consume(front, loop), m, loop);
        OnLogGains(Consume(front, loop), m.result.log, loop.whitelist);
        GainInOrder(Consume(front, loop).ticks, front, m, loop, Consume(front, loop).clock);
        assert Consume(front, loop).ticks + [] == Consume(front, loop).ticks;
      }
    }
  }

  lemma NothingConsumed(loop: Loop)
    ensures Consume([], loop).ticks == []
  {
  }

  lemma FromMoreLogs(ticks: seq<Tick>, front: seq<Message>, m: Message)
    requires TicksFromLogs(ticks, front)
    ensures TicksFromLogs(ticks, front + [m])
  {
    forall t | t in ticks
      ensures exists k :: 0 <= k < |front + [m]| && LogOf((front + [m])[k]).Some?
                          && LogKey(LogOf((front + [m])[k]).value) == Some(TickKey(t))
    {
      var k :| 0 <= k < |front| && LogOf(front[k]).Some? && LogKey(LogOf(front[k]).value) == Some(TickKey(t));
      assert (front + [m])[k] == front[k];
    }
  }

  lemma LogOfTick(ticks: seq<Tick>, ms: seq<Message>, t: Tick) returns (k: nat)
    requires TicksFromLogs(ticks, ms) && t in ticks
    ensures k < |ms| && LogOf(ms[k]).Some? && LogKey(LogOf(ms[k]).value) == Some(TickKey(t))
  {
    hide LogKey;
    k :| 0 <= k < |ms| && LogOf(ms[k]).Some? && LogKey(LogOf(ms[k]).value) == Some(TickKey(t));
  }

  lemma GainInOrder(ticks: seq<Tick>, front: seq<Message>, m: Message, loop: Loop, clock: int)
    requires Played(front + [m], loop) && TicksSorted(ticks) && TicksFromLogs(ticks, front) && LogOf(m).Some?
    ensures var more := ticks + Gain(clock, m.result.log, loop.whitelist);
            TicksSorted(more) && TicksFromLogs(more, front + [m])
  {
    hide RouteValidated, LogKey;
    FromMoreLogs(ticks, front, m);
    RoutedKey(m.result.log, loop.whitelist, clock);
    var all, gain := front + [m], Gain(clock, m.result.log, loop.whitelist);
    assert all[|front|] == m;
    if gain != [] {
      forall i | 0 <= i < |ticks| ensures KeyAtMost(TickKey(ticks[i]), TickKey(gain[0])) {
        assert ticks[i] in ticks;
        var k := LogOfTick(ticks, front, ticks[i]);
        assert all[k] == front[k];
        assert InOrder(ResultsOf(all)[k], ResultsOf(all)[|front|]);
      }
    }
  }

  /** A sorted fixture arrives sorted by block and log index, whatever was evicted and when the loop stops. */
  lemma {:induction false} ArrivesSorted(
      ceiling: nat, events: seq<Row>, epoch: string -> Option<int>, before: seq<Step>, s0: State, steps: seq<Step>,
      s: State, i: nat, loop: Loop)
    requires SortedByKey(events)
    requires AnyReplay(ceiling, Script(Groups(events), epoch), before, s0, steps, s, i, loop)
    ensures TicksSorted(Consume(s.members[i].c.sent, loop).ticks)
  {
    hide AnyReplay, SortedByKey, Played, OwnHeads, Rising, Consume, TicksSorted, Script;
    ReplayFacts(ceiling, events, epoch, before, s0, steps, s, i, loop);
    SentConsumed(s.members[i].c.sent, loop);
    TicksInOrder(Notices(s.members[i].c.sent), loop);
  }

  // A replay that loses a head.

  lemma OneStep(start: State, steps: seq<Step>, s: State, step: Step) returns (more: seq<Step>, s': State)
    requires start.ceiling > 0 && Run(start, steps) == Some(s) && Apply(s, step).Some?
    ensures more == steps + [step] && Run(start, more) == Some(s') && Apply(s, step) == Some(s')
  {
    more, s' := steps + [step], Apply(s, step).value;
    assert more[..|steps|] == steps;
  }

  /** The server with this one client, whose queue holds one message. */
  ghost predicate Serves(s: State, c: ClientState, played: nat) {
    s.ceiling == 1 && s.members == [Member(c, true)] && s.played == played
  }

  ghost predicate Resting(c: ClientState) {
    c.queue == [] && c.inFlight.None?
  }

  /** The writer sends what is queued. */
  lemma WriterSends(start: State, steps: seq<Step>, s: State, c: ClientState, m: Message, played: nat)
    returns (more: seq<Step>, s': State, c': ClientState)
    requires start.ceiling > 0 && Run(start, steps) == Some(s) && Serves(s, c, played)
    requires c.queue == [m] && c.inFlight.None?
    ensures more == steps + [WriterTakes(0), WriterSent(0)] && Run(start, more) == Some(s') && Serves(s', c', played)
    ensures c' == c.(queue := [], sent := c.sent + [m]) && s'.started == s.started && s'.nextSub == s.nextSub
  {
    hide Run, AllEvictions, FanMembers, Handle;
    var more1, s1 := OneStep(start, steps, s, WriterTakes(0));
    more, s' := OneStep(start, more1, s1, WriterSent(0));
    c' := Sent(Take(c));
    assert s'.members == [Member(c', true)];
  }

  /** A subscription, with its reply sent. */
  lemma Subscribes(start: State, steps: seq<Step>, s: State, c: ClientState, r: Request)
    returns (more: seq<Step>, s': State, c': ClientState)
    requires start.ceiling > 0 && Run(start, steps) == Some(s) && Serves(s, c, 0) && Resting(c) && r.Subscribe?
    ensures Run(start, more) == Some(s') && Serves(s', c', 0) && Resting(c') && s'.started
    ensures c'.subs == c.subs + [Subscription(s.nextSub, r.kind, if r.kind == Logs then Addresses(r.filter) else None)]
    ensures s'.nextSub == s.nextSub + 1 && Notices(c'.sent) == Notices(c.sent)
    ensures c'.dropped == c.dropped && s'.script == s.script
  {
    hide Notices, Addresses;
    var reply := Reply(0, Subscribed(s.nextSub));
    var more1, s1 := OneStep(start, steps, s, OnMessage(0, 0, r));
    var c1 := s1.members[0].c;
    assert c1.queue == [reply] && s1.members == [Member(c1, true)];
    more, s', c' := WriterSends(start, more1, s1, c1, reply, 0);
    NoticesPush(c.sent, reply);
    assert Notices(c.sent) + [] == Notices(c.sent);
  }

  lemma FanOfTwo(c: ClientState, a: Action, n: Message)
    requires |c.subs| == 2 && NoticesOf(c.subs, a) == [n]
    ensures FanOut(c, a, 1) == Enqueue(c, n, 1)
  {
    hide Matches, Enqueue;
    NoticesOfTwo(c.subs, a);
    assert c.subs[..1][..0] == [];
    var one, two := Notice(c.subs[0].id, a), Notice(c.subs[1].id, a);
    assert FanOver(c, c.subs[..1], a, 1) == if Matches(c.subs[0], a) then Enqueue(c, one, 1) else c;
    assert |(if Matches(c.subs[0], a) then [one] else []) + (if Matches(c.subs[1], a) then [two] else [])| == 1;
    if Matches(c.subs[0], a) {
      assert [one] + [] == [one];
      assert [n][0] == one;
    } else {
      assert [] + [two] == [two];
      assert [n][0] == two;
    }
  }

  /** One action is fanned out to the client. */
  lemma Plays(start: State, steps: seq<Step>, s: State, c: ClientState, n: Message, played: nat)
    returns (more: seq<Step>, s': State, c': ClientState)
    requires start.ceiling > 0 && Run(start, steps) == Some(s) && Serves(s, c, played) && s.started
    requires played < |s.script| && |c.subs| == 2 && NoticesOf(c.subs, s.script[played]) == [n]
    ensures more == steps + [Step.Replay] && Run(start, more) == Some(s') && Serves(s', c', played + 1) && s'.started
    ensures c' == Enqueue(c, n, 1) && s'.script == s.script
  {
    hide AllEvictions, FanOver;
    more, s' := OneStep(start, steps, s, Step.Replay);
    FanOfTwo(c, s.script[played], n);
    c' := Enqueue(c, n, 1);
    assert s'.members == [Member(c', true)];
  }

  lemma TwoBlocks(first: Row, second: Row, epoch: string -> Option<int>)
    requires first.blockNumber < second.blockNumber && BuildRawLog(first).Some? && BuildRawLog(second).Some?
    requires epoch(first.timestamp).Some? && epoch(second.timestamp).Some?
    ensures Script(Groups([first, second]), epoch)
         == [HeadAction(BuildBlockHeader(first.blockNumber, first.timestamp, epoch).value),
             LogAction(BuildRawLog(first).value),
             HeadAction(BuildBlockHeader(second.blockNumber, second.timestamp, epoch).value),
             LogAction(BuildRawLog(second).value)]
  {
    hide BuildRawLog, Hex;
    var g := Group(first.blockNumber, first.timestamp, [first]);
    var h := Group(second.blockNumber, second.timestamp, [second]);
    GroupsOne(first);
    GroupsStep([first], second);
    AddToOpen([], g, second);
    assert [first] + [second] == [first, second] && [] + [g] == [g] && [g] + [h] == [g, h];
    assert [g, h][..1] == [g] && [g][..0] == [] && [first][..0] == [] && [second][..0] == [];
    assert LogActions([first]) == [LogAction(BuildRawLog(first).value)];
    assert LogActions([second]) == [LogAction(BuildRawLog(second).value)];
    assert Script([g], epoch) == BlockScript(g, epoch);
  }

  /** Both subscriptions, on a fresh server with room for one message. */
  lemma BothSubscribed(script: seq<Action>, keys: seq<string>, loop: Loop)
    returns (before: seq<Step>, s0: State, c: ClientState)
    requires loop.headsId == 0 && loop.logsId == 1 && (set a | a in keys) == loop.whitelist.Keys
    requires forall a :: a in loop.whitelist ==> Lower(a) == a
    ensures Run(Start(1, script), before) == Some(s0) && Serves(s0, c, 0) && Resting(c) && s0.started
    ensures WatchesWhitelist(c.subs, loop) && |c.subs| == 2 && Notices(c.sent) == [] && s0.script == script
    ensures c.dropped == 0
  {
    hide Addresses;
    var start := Start(1, script);
    var steps1, s1 := OneStep(start, [], start, Connect);
    assert s1.members == [Member(NEW_CLIENT, true)];
    var steps2, s2, c2 := Subscribes(start, steps1, s1, NEW_CLIENT, Subscribe(NewHeads, NoAddress));
    before, s0, c := Subscribes(start, steps2, s2, c2, Subscribe(Logs, Many(keys)));
    assert c.subs == [Subscription(0, NewHeads, None), Subscription(1, Logs, Addresses(Many(keys)))];
  }

  /** The replay of two blocks of one row each in which the second head is evicted by the second row's log. */
  lemma LosesSecondHead(start: State, s0: State, c: ClientState, ns: seq<Message>)
    returns (steps: seq<Step>, s: State, d: ClientState)
    requires s0.ceiling == 1 && Serves(s0, c, 0) && Resting(c) && s0.started && |c.subs| == 2
    requires |s0.script| == 4 == |ns|
    requires forall k :: 0 <= k < 4 ==> NoticesOf(c.subs, s0.script[k]) == [ns[k]]
    ensures Run(s0, steps) == Some(s) && Serves(s, d, 4) && forall k :: 0 <= k < |steps| ==> LeavesAlone(steps[k], 0)
    ensures d.sent == c.sent + [ns[0], ns[1], ns[3]] && d.dropped == c.dropped + 1
  {
    hide Run, NoticesOf;
    RunNothing(s0);
    var steps1, s1, c1 := Plays(s0, [], s0, c, ns[0], 0);
    var steps2, s2, c2 := WriterSends(s0, steps1, s1, c1, ns[0], 1);
    var steps3, s3, c3 := Plays(s0, steps2, s2, c2, ns[1], 1);
    var steps4, s4, c4 := WriterSends(s0, steps3, s3, c3, ns[1], 2);
    var steps5, s5, c5 := Plays(s0, steps4, s4, c4, ns[2], 2);
    var steps6, s6, c6 := Plays(s0, steps5, s5, c5, ns[3], 3);
    assert c5.queue == [ns[2]] && c6.queue == [ns[3]];
    steps, s, d := WriterSends(s0, steps6, s6, c6, ns[3], 4);
  }

  lemma RunNothing(s: State)
    requires s.ceiling > 0
    ensures Run(s, []) == Some(s)
  {
  }

  /** What the loop makes of the first head, the first log and the second log. */
  lemma StampedByFirst(h: Header, l: Log, m: Log, loop: Loop, t: int)
    requires loop.headsId != loop.logsId && HeadTime(loop.heads, h.timestamp) == Some(t)
    ensures var ms := [Notice(loop.headsId, HeadAction(h)), Notice(loop.logsId, LogAction(l)),
                       Notice(loop.logsId, LogAction(m))];
            Consume(ms, loop).ticks == Gain(t, l, loop.whitelist) + Gain(t, m, loop.whitelist)
  {
    hide OnLog, RouteValidated, HeadTime, Consume;
    var a := Notice(loop.headsId, HeadAction(h));
    var b, c := Notice(loop.logsId, LogAction(l)), Notice(loop.logsId, LogAction(m));
    NothingYet(loop);
    ConsumePush([], a, loop);
    ConsumePush([a], b, loop);
    ConsumePush([a, b], c, loop);
    assert [] + [a] == [a] && [a] + [b] == [a, b] && [a, b] + [c] == [a, b, c];
    var p := IDLE.(clock := t, blocks := 1);
    assert Consume([a], loop) == p;
    DispatchLog(p, b, loop);
    OnLogGains(p, l, loop.whitelist);
    OnLogKeepsClock(p, b, loop);
    var q := OnLog(p, l, loop.whitelist);
    DispatchLog(q, c, loop);
    OnLogGains(q, m, loop.whitelist);
  }

  lemma NothingYet(loop: Loop)
    ensures Consume([], loop) == IDLE
  {
  }

  /** A replay over a queue of one message, in which the second block's head is evicted: the second block's
      row is stamped with the first block's time. */
  lemma EvictedHead(first: Row, second: Row, epoch: string -> Option<int>, keys: seq<string>, loop: Loop)
    returns (before: seq<Step>, s0: State, steps: seq<Step>, s: State)
    requires first.blockNumber < second.blockNumber && BuildRawLog(first).Some? && BuildRawLog(second).Some?
    requires epoch(first.timestamp).Some? && epoch(second.timestamp).Some?
    requires loop.headsId == 0 && loop.logsId == 1 && (set a | a in keys) == loop.whitelist.Keys
    requires forall a :: a in loop.whitelist ==> Lower(a) == a
    requires Lower(first.pool) in loop.whitelist && Lower(second.pool) in loop.whitelist
    requires loop.heads.AsNumber? || epoch(first.timestamp).value >= 0
    ensures AnyReplay(1, Script(Groups([first, second]), epoch), before, s0, steps, s, 0, loop)
    ensures s.played == 4 && s.members[0].c.dropped == 1
    ensures var t := epoch(first.timestamp).value;
            Consume(s.members[0].c.sent, loop).ticks
            == Gain(t, BuildRawLog(first).value, loop.whitelist) + Gain(t, BuildRawLog(second).value, loop.whitelist)
  {
    hide BuildRawLog, Consume, Gain, Hex, Notices, Run, WatchesWhitelist, NoticesOf, Groups, Script, LeavesAlone;
    var script := Script(Groups([first, second]), epoch);
    TwoBlocks(first, second, epoch);
    var c: ClientState, d: ClientState;
    before, s0, c := BothSubscribed(script, keys, loop);
    var l, m := BuildRawLog(first).value, BuildRawLog(second).value;
    var g, h := script[0].header, script[2].header;
    var ns := [Notice(0, HeadAction(g)), Notice(1, LogAction(l)), Notice(0, HeadAction(h)), Notice(1, LogAction(m))];
    HeadNotices(c.subs, loop, g);
    HeadNotices(c.subs, loop, h);
    LogAddress(first);
    LogAddress(second);
    LogNotices(c.subs, loop, l);
    LogNotices(c.subs, loop, m);
    steps, s, d := LosesSecondHead(Start(1, script), s0, c, ns);
    assert s.members[0].c == d;
    HeadTimeOfHex(loop.heads, epoch(first.timestamp).value);
    StampedByFirst(g, l, m, loop, epoch(first.timestamp).value);
    NoticesOfThree(c.sent, ns[0], ns[1], ns[3]);
    SentConsumed(d.sent, loop);
  }

  lemma LogAddress(row: Row)
    requires BuildRawLog(row).Some?
    ensures BuildRawLog(row).value.address == row.pool
  {
  }

  lemma NoticesOfThree(ms: seq<Message>, a: Message, b: Message, c: Message)
    requires Notices(ms) == [] && a.Notice? && b.Notice? && c.Notice?
    ensures Notices(ms + [a, b, c]) == [a, b, c]
  {
    hide Notices;
    NoticesPush(ms, a);
    NoticesPush(ms + [a], b);
    NoticesPush(ms + [a] + [b], c);
    assert ms + [a, b, c] == ms + [a] + [b] + [c];
  }
}
