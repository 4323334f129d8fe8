/** From fixture rows to the ring buffer: the mock server's replay, a client's queue and connection,
    and the realtime loop, composed. */
module EndToEnd {
  import opened Prelude
  import opened HexText
  import opened Events
  import opened Replay
  import opened BlockGroups
  import opened Router
  import opened ClientQueues
  import opened ServerRuns
  import opened Pipeline
  import opened RingBuffer

  // What a client is sent.

  function Notices(ms: seq<Message>): seq<Message> {
    if ms == [] then []
    else Notices(ms[..|ms| - 1]) + if ms[|ms| - 1].Notice? then [ms[|ms| - 1]] else []
  }

  /** The notifications one action means for a list of subscriptions. */
  function NoticesOf(subs: seq<Subscription>, a: Action): seq<Message> {
    if subs == [] then []
    else
      var s := subs[|subs| - 1];
      NoticesOf(subs[..|subs| - 1], a) + if Matches(s, a) then [Notice(s.id, a)] else []
  }

  function NoticesOfAll(subs: seq<Subscription>, actions: seq<Action>): seq<Message> {
    if actions == [] then []
    else NoticesOfAll(subs, actions[..|actions| - 1]) + NoticesOf(subs, actions[|actions| - 1])
  }

  lemma NoticesPush(ms: seq<Message>, m: Message)
    ensures Notices(ms + [m]) == Notices(ms) + if m.Notice? then [m] else []
  {
    assert (ms + [m])[..|ms|] == ms;
  }

  lemma {:induction false} FanOverNotices(c: ClientState, subs: seq<Subscription>, a: Action, ceiling: nat)
    requires ceiling > 0
    ensures Notices(FanOver(c, subs, a, ceiling).enqueued) == Notices(c.enqueued) + NoticesOf(subs, a)
  {
    if subs == [] {
      assert Notices(c.enqueued) + [] == Notices(c.enqueued);
    } else {
      var before := FanOver(c, subs[..|subs| - 1], a, ceiling);
      FanOverNotices(c, subs[..|subs| - 1], a, ceiling);
      NoticesPush(before.enqueued, Notice(subs[|subs| - 1].id, a));
    }
  }

  /** Steps that leave the subscriptions and the connection of client `i` alone. */
  ghost predicate LeavesAlone(step: Step, i: nat) {
    !(step.OnMessage? && step.client == i) && !(step.Disconnect? && step.client == i)
  }

  /** Client `i` has been notified of exactly the first `played` actions. */
  ghost predicate Following(s: State, i: nat, subs: seq<Subscription>) {
    Live(s, i) && s.members[i].c.subs == subs && s.played <= |s.script|
    && Notices(s.members[i].c.enqueued) == NoticesOfAll(subs, s.script[..s.played])
  }

  lemma ReplayFollows(s: State, s': State, i: nat, subs: seq<Subscription>)
    requires s.ceiling > 0 && Following(s, i, subs) && Apply(s, Replay) == Some(s')
    ensures Following(s', i, subs)
  {
    var a := s.script[s.played];
    assert s'.members[i] == FanMember(s.members[i], a, s.ceiling);
    FanOverKeepsSubs(s.members[i].c, subs, a, s.ceiling);
    FanOverNotices(s.members[i].c, subs, a, s.ceiling);
    assert s.script[..s.played + 1][..s.played] == s.script[..s.played];
  }

  lemma StepFollows(s: State, step: Step, s': State, i: nat, subs: seq<Subscription>)
    requires s.ceiling > 0 && Following(s, i, subs) && Apply(s, step) == Some(s') && LeavesAlone(step, i)
    ensures Following(s', i, subs)
  {
    if step.Replay? {
      ReplayFollows(s, s', i, subs);
    }
  }

  lemma {:induction false} RunFollows(s0: State, steps: seq<Step>, s: State, i: nat, subs: seq<Subscription>)
    requires s0.ceiling > 0 && Following(s0, i, subs) && Run(s0, steps) == Some(s)
    requires forall k :: 0 <= k < |steps| ==> LeavesAlone(steps[k], i)
    ensures Following(s, i, subs)
  {
    if steps != [] {
      var before := Run(s0, steps[..|steps| - 1]).value;
      RunFollows(s0, steps[..|steps| - 1], before, i, subs);
      StepFollows(before, steps[|steps| - 1], s, i, subs);
    }
  }

  /** Before the first block only replies have been enqueued. */
  ghost predicate Quiet(s: State) {
    s.played == 0 ==> forall i :: 0 <= i < |s.members| ==> Notices(s.members[i].c.enqueued) == []
  }

  lemma HandleIsQuiet(c: ClientState, id: int, r: Request, newId: nat, ceiling: nat)
    requires ceiling > 0
    ensures Notices(Handle(c, id, r, newId, ceiling).enqueued) == Notices(c.enqueued)
  {
    hide Notices, WithoutSub, HasSub, Addresses;
    var c' := Handle(c, id, r, newId, ceiling);
    var reply := c'.enqueued[|c.enqueued|];
    assert c'.enqueued == c.enqueued + [reply] && reply.Reply?;
    NoticesPush(c.enqueued, reply);
    assert Notices(c.enqueued) + [] == Notices(c.enqueued);
  }

  lemma StepQuiet(s: State, step: Step, s': State)
    requires s.ceiling > 0 && Quiet(s) && Apply(s, step) == Some(s')
    ensures Quiet(s')
  {
    hide Handle, FanMembers, AllEvictions;
    NoNotices();
    if step.OnMessage? && s.played == 0 {
      HandleIsQuiet(s.members[step.client].c, step.requestId, step.request, s.nextSub, s.ceiling);
    }
  }

  lemma NoNotices()
    ensures Notices([]) == []
  {
  }

  lemma {:induction false} RunQuiet(s0: State, steps: seq<Step>, s: State)
    requires s0.ceiling > 0 && Quiet(s0) && Run(s0, steps) == Some(s)
    ensures Quiet(s)
  {
    if steps != [] {
      var before := Run(s0, steps[..|steps| - 1]).value;
      RunQuiet(s0, steps[..|steps| - 1], before);
      StepQuiet(before, steps[|steps| - 1], s);
    }
  }

  // What the realtime loop makes of it.

  /** The subscriptions of `run_realtime`: new heads, then logs of the whitelisted addresses. */
  ghost predicate WatchesWhitelist(subs: seq<Subscription>, loop: Loop) {
    loop.headsId != loop.logsId && (forall a :: a in loop.whitelist ==> Lower(a) == a) &&
    exists keys: seq<string> :: (set a | a in keys) == loop.whitelist.Keys &&
      subs == [Subscription(loop.headsId, NewHeads, None), Subscription(loop.logsId, Logs, Addresses(Many(keys)))]
  }

  /** The events of one block's rows, each stamped with the block's time. */
  function DeliveredRows(rows: seq<Row>, whitelist: Whitelist, timestamp: int): seq<Tick> {
    if rows == [] then []
    else
      var tick := Deliver(rows[|rows| - 1], whitelist, timestamp);
      DeliveredRows(rows[..|rows| - 1], whitelist, timestamp) + if tick.None? then [] else [tick.value]
  }

  /** What a block contributes: nothing when its timestamp does not parse, and nothing when it is the
      epoch itself, which the loop mistakes for "no head seen yet". */
  function DeliveredBlock(g: Group, whitelist: Whitelist, epoch: string -> Option<int>): seq<Tick> {
    match epoch(g.timestamp)
    case None => []
    case Some(t) => if t == 0 then [] else DeliveredRows(g.rows, whitelist, t)
  }

  function Delivered(groups: seq<Group>, whitelist: Whitelist, epoch: string -> Option<int>): seq<Tick> {
    if groups == [] then []
    else
      Delivered(groups[..|groups| - 1], whitelist, epoch)
      + DeliveredBlock(groups[|groups| - 1], whitelist, epoch)
  }

  ghost predicate NoneBefore1970(groups: seq<Group>, epoch: string -> Option<int>) {
    forall i :: 0 <= i < |groups| ==> !Before1970(groups[i], epoch)
  }

  predicate Before1970(g: Group, epoch: string -> Option<int>) {
    epoch(g.timestamp).Some? && epoch(g.timestamp).value < 0
  }

  /** The blocks before the first one from before 1970. */
  function UpTo1970(groups: seq<Group>, epoch: string -> Option<int>): (r: seq<Group>)
    ensures r <= groups && (r == groups <==> NoneBefore1970(groups, epoch))
    ensures NoneBefore1970(r, epoch)
    ensures |r| < |groups| ==> Before1970(groups[|r|], epoch)
  {
    if groups == [] then []
    else
      var front, last := UpTo1970(groups[..|groups| - 1], epoch), groups[|groups| - 1];
      if |front| == |groups| - 1 && !Before1970(last, epoch) then groups else front
  }

  lemma {:induction false} ConsumeConcat(p: Progress, a: seq<Message>, b: seq<Message>, loop: Loop)
    ensures ConsumeFrom(p, a + b, loop)
         == ConsumeFrom(ConsumeFrom(p, a, loop), b, loop)
  {
    if b == [] {
      assert a + b == a;
    } else {
      assert (a + b)[..|a + b| - 1] == a + b[..|b| - 1];
      ConsumeConcat(p, a, b[..|b| - 1], loop);
    }
  }

  /** Replies are not the loop's business. */
  lemma {:induction false} ConsumeNotices(p: Progress, ms: seq<Message>, loop: Loop)
    ensures ConsumeFrom(p, Notices(ms), loop) == ConsumeFrom(p, ms, loop)
  {
    if ms != [] {
      var front, m := ms[..|ms| - 1], ms[|ms| - 1];
      ConsumeNotices(p, front, loop);
      if m.Notice? {
        assert (Notices(front) + [m])[..|Notices(front)|] == Notices(front);
      } else {
        assert Notices(ms) == Notices(front);
      }
    }
  }

  /** The server's address filter passes exactly the logs of whitelisted addresses; an empty whitelist asks
      for every log. */
  lemma LogNotices(subs: seq<Subscription>, loop: Loop, log: Log)
    requires WatchesWhitelist(subs, loop)
    ensures NoticesOf(subs, LogAction(log))
         == if Lower(log.address) in loop.whitelist || |loop.whitelist| == 0
            then [Notice(loop.logsId, LogAction(log))] else []
  {
    var keys: seq<string> :| (set a | a in keys) == loop.whitelist.Keys &&
      subs == [Subscription(loop.headsId, NewHeads, None), Subscription(loop.logsId, Logs, Addresses(Many(keys)))];
    NoticesOfTwo(subs, LogAction(log));
    assert !Matches(subs[0], LogAction(log));
    assert [] + [Notice(loop.logsId, LogAction(log))] == [Notice(loop.logsId, LogAction(log))];
    FilterOfKeys(keys, loop.whitelist, log);
  }

  lemma FilterOfKeys(keys: seq<string>, whitelist: Whitelist, log: Log)
    requires (set a | a in keys) == whitelist.Keys && forall a :: a in whitelist ==> Lower(a) == a
    ensures var asked := Addresses(Many(keys));
            asked.None? || Lower(log.address) in asked.value <==> Lower(log.address) in whitelist || |whitelist| == 0
  {
    if keys == [] {
      assert whitelist.Keys == {};
    } else {
      assert keys[0] in (set a | a in keys);
      assert forall a :: a in keys <==> a in whitelist;
      var lowered := set a | a in keys :: Lower(a);
      forall a ensures a in lowered <==> a in whitelist {
        if a in whitelist {
          assert a in keys && Lower(a) == a;
        }
      }
    }
  }

  lemma NoticesOfTwo(subs: seq<Subscription>, a: Action)
    requires |subs| == 2
    ensures NoticesOf(subs, a) == (if Matches(subs[0], a) then [Notice(subs[0].id, a)] else [])
                                + (if Matches(subs[1], a) then [Notice(subs[1].id, a)] else [])
  {
    assert subs[..1][..0] == [];
    assert NoticesOf(subs[..1], a) == if Matches(subs[0], a) then [Notice(subs[0].id, a)] else [];
  }

  lemma HeadNotices(subs: seq<Subscription>, loop: Loop, h: Header)
    requires WatchesWhitelist(subs, loop)
    ensures NoticesOf(subs, HeadAction(h)) == [Notice(loop.headsId, HeadAction(h))]
  {
    NoticesOfTwo(subs, HeadAction(h));
  }

  lemma {:induction false} NoticesOfConcat(subs: seq<Subscription>, a: seq<Action>, b: seq<Action>)
    ensures NoticesOfAll(subs, a + b) == NoticesOfAll(subs, a) + NoticesOfAll(subs, b)
  {
    if b == [] {
      assert a + b == a;
    } else {
      assert (a + b)[..|a + b| - 1] == a + b[..|b| - 1];
      NoticesOfConcat(subs, a, b[..|b| - 1]);
    }
  }

  lemma OneMessage(p: Progress, m: Message, loop: Loop)
    ensures ConsumeFrom(p, [m], loop) == Dispatch(p, m, loop)
    ensures ConsumeFrom(p, [], loop) == p
  {
    assert [m][..0] == [];
  }

  lemma TwoIds(subs: seq<Subscription>, loop: Loop)
    requires WatchesWhitelist(subs, loop)
    ensures loop.headsId != loop.logsId
  {
  }

  lemma NotRouted(log: Log, whitelist: Whitelist, timestamp: int)
    requires Lower(log.address) !in whitelist
    ensures RouteValidated(log, whitelist, timestamp) == Ok(None)
  {
  }

  /** One row's log, consumed with the clock at its block's time. */
  lemma ConsumeRow(p: Progress, row: Row, subs: seq<Subscription>, loop: Loop)
    requires WatchesWhitelist(subs, loop) && !p.crashed && BuildRawLog(row).Some?
    ensures var tick := Deliver(row, loop.whitelist, p.clock);
            ConsumeFrom(p, NoticesOf(subs, LogAction(BuildRawLog(row).value)), loop)
            == if p.clock == 0 || tick.None? then p else p.(ticks := p.ticks + [tick.value])
  {
    hide RouteValidated, BuildRawLog, WatchesWhitelist, NoticesOf;
    var log := BuildRawLog(row).value;
    LogNotices(subs, loop, log);
    TwoIds(subs, loop);
    if Lower(log.address) !in loop.whitelist {
      NotRouted(log, loop.whitelist, p.clock);
    }
    OneMessage(p, Notice(0, LogAction(log)), loop);
    OneMessage(p, Notice(loop.logsId, LogAction(log)), loop);
  }

  /** The events of the rows before, then of one more row. */
  lemma ConsumeOneMore(p: Progress, front: seq<Row>, row: Row, subs: seq<Subscription>, loop: Loop)
    requires WatchesWhitelist(subs, loop) && BuildRawLog(row).Some?
    requires !ConsumeFrom(p, NoticesOfAll(subs, LogActions(front)), loop).crashed
    ensures var done := ConsumeFrom(p, NoticesOfAll(subs, LogActions(front)), loop);
            var tick := Deliver(row, loop.whitelist, done.clock);
            ConsumeFrom(p, NoticesOfAll(subs, LogActions(front) + [LogAction(BuildRawLog(row).value)]),
                        loop)
            == if done.clock == 0 || tick.None? then done else done.(ticks := done.ticks + [tick.value])
  {
    var actions, a := LogActions(front), LogAction(BuildRawLog(row).value);
    assert (actions + [a])[..|actions|] == actions;
    ConsumeConcat(p, NoticesOfAll(subs, actions), NoticesOf(subs, a), loop);
    ConsumeRow(ConsumeFrom(p, NoticesOfAll(subs, actions), loop), row, subs, loop);
  }

  lemma RowsStep(front: seq<Row>, row: Row, whitelist: Whitelist, clock: int)
    ensures BuildRawLog(row).Some? ==>
              LogActions(front + [row]) == LogActions(front) + [LogAction(BuildRawLog(row).value)]
    ensures BuildRawLog(row).None? ==>
              LogActions(front + [row]) == LogActions(front) && Deliver(row, whitelist, clock).None?
    ensures DeliveredRows(front + [row], whitelist, clock) == DeliveredRows(front, whitelist, clock)
              + if Deliver(row, whitelist, clock).Some? then [Deliver(row, whitelist, clock).value] else []
  {
    assert (front + [row])[..|front|] == front;
  }

  /** The progress once these events are written too; before the first head nothing is. */
  function After(p: Progress, ticks: seq<Tick>): Progress {
    if p.clock == 0 then p else p.(ticks := p.ticks + ticks)
  }

  lemma AfterMore(p: Progress, ticks: seq<Tick>, tick: Option<Tick>)
    ensures After(p, ticks + if tick.Some? then [tick.value] else [])
         == if p.clock == 0 || tick.None? then After(p, ticks)
            else After(p, ticks).(ticks := After(p, ticks).ticks + [tick.value])
    ensures After(p, ticks).clock == p.clock && After(p, ticks).crashed == p.crashed
  {
    assert ticks + [] == ticks;
    if tick.Some? {
      assert (p.ticks + ticks) + [tick.value] == p.ticks + (ticks + [tick.value]);
    }
  }

  lemma {:induction false} ConsumeRows(p: Progress, rows: seq<Row>, subs: seq<Subscription>, loop: Loop)
    requires WatchesWhitelist(subs, loop) && !p.crashed
    ensures ConsumeFrom(p, NoticesOfAll(subs, LogActions(rows)), loop)
         == After(p, DeliveredRows(rows, loop.whitelist, p.clock))
  {
    if rows == [] {
      assert p.ticks + [] == p.ticks;
    } else {
      var front, row := rows[..|rows| - 1], rows[|rows| - 1];
      assert rows == front + [row];
      ConsumeRows(p, front, subs, loop);
      RowsStep(front, row, loop.whitelist, p.clock);
      AfterMore(p, DeliveredRows(front, loop.whitelist, p.clock), Deliver(row, loop.whitelist, p.clock));
      if BuildRawLog(row).Some? {
        ConsumeOneMore(p, front, row, subs, loop);
      }
    }
  }

  /** One block: its head sets the clock, its logs are stamped with it. */
  lemma ConsumeBlock(p: Progress, g: Group, epoch: string -> Option<int>, subs: seq<Subscription>, loop: Loop)
    requires WatchesWhitelist(subs, loop) && !p.crashed
    requires loop.heads.AsNumber? || !Before1970(g, epoch)
    ensures var q := ConsumeFrom(p, NoticesOfAll(subs, BlockScript(g, epoch)), loop);
            && !q.crashed && q.ticks == p.ticks + DeliveredBlock(g, loop.whitelist, epoch)
            && q.blocks == p.blocks + if epoch(g.timestamp).Some? then 1 else 0
  {
    var t := epoch(g.timestamp);
    if t.None? {
      assert p.ticks + [] == p.ticks;
    } else {
      var h := BuildBlockHeader(g.number, g.timestamp, epoch).value;
      var head := NoticesOf(subs, HeadAction(h));
      var p1 := p.(clock := t.value, blocks := p.blocks + 1);
      HeadNotices(subs, loop, h);
      OneMessage(p, Notice(loop.headsId, HeadAction(h)), loop);
      HeadTimeOfHex(loop.heads, t.value);
      assert ConsumeFrom(p, head, loop) == p1;
      var rest := NoticesOfAll(subs, LogActions(g.rows));
      NoticesOfConcat(subs, [HeadAction(h)], LogActions(g.rows));
      assert [HeadAction(h)][..0] == [];
      assert NoticesOfAll(subs, [HeadAction(h)]) == head;
      ConsumeConcat(p, head, rest, loop);
      ConsumeRows(p1, g.rows, subs, loop);
    }
  }

  /** After the crash nothing more is consumed. */
  lemma {:induction false} CrashStays(p: Progress, ms: seq<Message>, loop: Loop)
    requires p.crashed
    ensures ConsumeFrom(p, ms, loop) == p
  {
    if ms != [] {
      CrashStays(p, ms[..|ms| - 1], loop);
    }
  }

  /** A block from before 1970: its head, as text, ends the loop. */
  lemma ConsumeNegativeBlock(p: Progress, g: Group, epoch: string -> Option<int>, subs: seq<Subscription>, loop: Loop)
    requires WatchesWhitelist(subs, loop) && !p.crashed && loop.heads.AsText? && Before1970(g, epoch)
    ensures ConsumeFrom(p, NoticesOfAll(subs, BlockScript(g, epoch)), loop)
         == p.(crashed := true)
  {
    var h := BuildBlockHeader(g.number, g.timestamp, epoch).value;
    var head := NoticesOf(subs, HeadAction(h));
    HeadNotices(subs, loop, h);
    OneMessage(p, Notice(loop.headsId, HeadAction(h)), loop);
    HeadTimeOfHex(loop.heads, epoch(g.timestamp).value);
    assert ConsumeFrom(p, head, loop) == p.(crashed := true);
    var rest := NoticesOfAll(subs, LogActions(g.rows));
    NoticesOfConcat(subs, [HeadAction(h)], LogActions(g.rows));
    assert [HeadAction(h)][..0] == [];
    assert NoticesOfAll(subs, [HeadAction(h)]) == head;
    ConsumeConcat(p, head, rest, loop);
    CrashStays(p.(crashed := true), rest, loop);
  }

  /** The blocks the loop gets to: with heads as numbers all of them. */
  function Reached(groups: seq<Group>, epoch: string -> Option<int>, heads: Form): seq<Group> {
    if heads.AsNumber? then groups else UpTo1970(groups, epoch)
  }

  ghost predicate AllReached(groups: seq<Group>, epoch: string -> Option<int>, heads: Form) {
    heads.AsNumber? || NoneBefore1970(groups, epoch)
  }

  /** How many of the blocks have a time that parses, and so a head. */
  function DatedBlocks(groups: seq<Group>, epoch: string -> Option<int>): nat {
    if groups == [] then 0
    else
      DatedBlocks(groups[..|groups| - 1], epoch)
      + if epoch(groups[|groups| - 1].timestamp).Some? then 1 else 0
  }

  /** The loop on a whole script: it crashes exactly if heads come as text and one is from before 1970, it
      has counted the blocks it got to that have a head, and what it has written are their delivered rows. */
  ghost predicate ScriptOutcome(q: Progress, groups: seq<Group>, loop: Loop, epoch: string -> Option<int>) {
    && (q.crashed <==> loop.heads.AsText? && !NoneBefore1970(groups, epoch))
    && q.blocks == DatedBlocks(Reached(groups, epoch, loop.heads), epoch)
    && q.ticks == Delivered(Reached(groups, epoch, loop.heads), loop.whitelist, epoch)
  }

  lemma {:induction false} ConsumeScript(groups: seq<Group>, epoch: string -> Option<int>, subs: seq<Subscription>,
                                         loop: Loop)
    requires WatchesWhitelist(subs, loop)
    ensures ScriptOutcome(Consume(NoticesOfAll(subs, Script(groups, epoch)), loop), groups, loop, epoch)
  {
    hide Consume, Script, NoticesOfAll, Delivered, DeliveredBlock, DatedBlocks, Reached, NoneBefore1970;
    hide WatchesWhitelist;
    if groups == [] {
      ConsumeNothing(epoch, subs, loop);
    } else {
      var front, g := groups[..|groups| - 1], groups[|groups| - 1];
      assert groups == front + [g];
      ConsumeScript(front, epoch, subs, loop);
      ScriptStep(front, g, epoch, subs, loop);
      StepUpTo1970(front, g, loop.whitelist, epoch, loop.heads);
    }
  }

  lemma ConsumeNothing(epoch: string -> Option<int>, subs: seq<Subscription>, loop: Loop)
    ensures ScriptOutcome(Consume(NoticesOfAll(subs, Script([], epoch)), loop), [], loop, epoch)
  {
  }

  lemma StepUpTo1970(front: seq<Group>, g: Group, whitelist: Whitelist, epoch: string -> Option<int>, heads: Form)
    ensures NoneBefore1970(front + [g], epoch) <==> NoneBefore1970(front, epoch) && !Before1970(g, epoch)
    ensures Delivered(Reached(front + [g], epoch, heads), whitelist, epoch)
         == Delivered(Reached(front, epoch, heads), whitelist, epoch)
            + if AllReached(front + [g], epoch, heads) then DeliveredBlock(g, whitelist, epoch) else []
    ensures DatedBlocks(Reached(front + [g], epoch, heads), epoch)
         == DatedBlocks(Reached(front, epoch, heads), epoch)
            + if AllReached(front + [g], epoch, heads) && epoch(g.timestamp).Some? then 1 else 0
  {
    var all := front + [g];
    assert all[..|all| - 1] == front && all[|front|] == g;
    if NoneBefore1970(all, epoch) {
      assert forall i :: 0 <= i < |front| ==> front[i] == all[i];
    }
  }

  lemma ScriptStep(front: seq<Group>, g: Group, epoch: string -> Option<int>, subs: seq<Subscription>, loop: Loop)
    requires WatchesWhitelist(subs, loop)
    ensures var p := Consume(NoticesOfAll(subs, Script(front, epoch)), loop);
            var q := Consume(NoticesOfAll(subs, Script(front + [g], epoch)), loop);
            && (q.crashed <==> p.crashed || (loop.heads.AsText? && Before1970(g, epoch)))
            && q.blocks == p.blocks + (if q.crashed || epoch(g.timestamp).None? then 0 else 1)
            && q.ticks == p.ticks + if q.crashed then [] else DeliveredBlock(g, loop.whitelist, epoch)
  {
    var a, b := NoticesOfAll(subs, Script(front, epoch)), NoticesOfAll(subs, BlockScript(g, epoch));
    assert (front + [g])[..|front|] == front;
    NoticesOfConcat(subs, Script(front, epoch), BlockScript(g, epoch));
    ConsumeConcat(IDLE, a, b, loop);
    var p := ConsumeFrom(IDLE, a, loop);
    if p.crashed {
      CrashStays(p, b, loop);
    } else if loop.heads.AsText? && Before1970(g, epoch) {
      ConsumeNegativeBlock(p, g, epoch, subs, loop);
    } else {
      ConsumeBlock(p, g, epoch, subs, loop);
    }
  }

  lemma AllSent(c: ClientState, ceiling: nat)
    requires ClientInv(c, ceiling) && c.dropped == 0 && c.queue == [] && c.inFlight.None?
    ensures c.sent == c.enqueued
  {
    ClientFacts(c, ceiling);
    assert c.sent + [] + [] == c.sent;
  }

  lemma RunAllSent(start: State, before: seq<Step>, s0: State, steps: seq<Step>, s: State, i: nat)
    requires ServerRuns.Inv(start) && Run(start, before) == Some(s0)
    requires Run(s0, steps) == Some(s) && i < |s.members| && s.members[i].c.dropped == 0
    requires s.members[i].c.queue == [] && s.members[i].c.inFlight.None?
    ensures s.members[i].c.sent == s.members[i].c.enqueued
  {
    RunKeepsInv(start, before, s0);
    RunKeepsInv(s0, steps, s);
    AllSent(s.members[i].c, s.ceiling);
  }

  lemma QuietIsFollowing(start: State, before: seq<Step>, s0: State, i: nat)
    requires start.ceiling > 0 && Quiet(start) && Run(start, before) == Some(s0)
    requires s0.played == 0 && Live(s0, i)
    ensures Following(s0, i, s0.members[i].c.subs)
  {
    RunQuiet(start, before, s0);
    assert s0.script[..0] == [];
  }

  /** A client that keeps its subscriptions is, once the replay is over, enqueued every notification. */
  lemma EnqueuedEverything(start: State, before: seq<Step>, s0: State, steps: seq<Step>, s: State, i: nat)
    requires start.ceiling > 0 && Quiet(start) && Run(start, before) == Some(s0)
    requires s0.played == 0 && Live(s0, i)
    requires Run(s0, steps) == Some(s) && s.played == |s.script|
    requires forall k :: 0 <= k < |steps| ==> LeavesAlone(steps[k], i)
    ensures i < |s.members|
    ensures Notices(s.members[i].c.enqueued) == NoticesOfAll(s0.members[i].c.subs, start.script)
  {
    hide Run, Quiet, LeavesAlone;
    assert s.script[..s.played] == s.script;
    QuietIsFollowing(start, before, s0, i);
    RunFollows(s0, steps, s, i, s0.members[i].c.subs);
  }

  /** Client `i` has both subscriptions in `s0`, before the first block, and keeps them; in `s` the replay
      is over, nothing was dropped from its queue and everything queued has been sent. */
  ghost predicate CleanReplay(ceiling: nat, script: seq<Action>, before: seq<Step>, s0: State,
                              steps: seq<Step>, s: State, i: nat, loop: Loop)
  {
    && ceiling > 0 && Run(Start(ceiling, script), before) == Some(s0)
    && s0.played == 0 && Live(s0, i) && WatchesWhitelist(s0.members[i].c.subs, loop)
    && Run(s0, steps) == Some(s) && s.played == |s.script| && i < |s.members|
    && (forall k :: 0 <= k < |steps| ==> LeavesAlone(steps[k], i))
    && s.members[i].c.dropped == 0 && s.members[i].c.queue == [] && s.members[i].c.inFlight.None?
  }

  /** The whole path, over every run of the server: after a clean replay the realtime loop, fed with what
      was sent to the client, has produced exactly the delivered rows of the blocks it got to, in block
      order, and has counted those of them that have a head. With heads as numbers these are all blocks and it
      never crashes; with heads as text they are those before the first one from before 1970, and it crashes
      exactly if there is such a block. */
  lemma Fidelity(ceiling: nat, events: seq<Row>, epoch: string -> Option<int>, before: seq<Step>,
                 s0: State, steps: seq<Step>, s: State, i: nat, loop: Loop)
    requires CleanReplay(ceiling, Script(Groups(events), epoch), before, s0, steps, s, i, loop)
    ensures var q := Consume(s.members[i].c.sent, loop);
            && (q.crashed <==> loop.heads.AsText? && !NoneBefore1970(Groups(events), epoch))
            && q.blocks == DatedBlocks(Reached(Groups(events), epoch, loop.heads), epoch)
            && q.ticks == Delivered(Reached(Groups(events), epoch, loop.heads), loop.whitelist, epoch)
  {
    EnqueuedEverything(Start(ceiling, Script(Groups(events), epoch)), before, s0, steps, s, i);
    RunAllSent(Start(ceiling, Script(Groups(events), epoch)), before, s0, steps, s, i);
    ConsumeNotices(IDLE, s.members[i].c.sent, loop);
    ConsumeScript(Groups(events), epoch, s0.members[i].c.subs, loop);
  }

  // What the delivered events are.

  /** Rows of a block that reach the buffer, in normal form. */
  function NormalRows(rows: seq<Row>, whitelist: Whitelist, timestamp: int): seq<Tick> {
    if rows == [] then []
    else
      var row := rows[|rows| - 1];
      NormalRows(rows[..|rows| - 1], whitelist, timestamp)
      + if Deliverable(row, whitelist) then [Normalize(row, whitelist[Lower(row.pool)], timestamp)] else []
  }

  /** A block delivers exactly its deliverable rows, normalized and carrying the block's own time. */
  lemma {:induction false} DeliveredRowsAreNormal(rows: seq<Row>, whitelist: Whitelist, timestamp: int)
    ensures DeliveredRows(rows, whitelist, timestamp) == NormalRows(rows, whitelist, timestamp)
  {
    if rows != [] {
      DeliveredRowsAreNormal(rows[..|rows| - 1], whitelist, timestamp);
      DeliveryIsExact(rows[|rows| - 1], whitelist, timestamp);
    }
  }

  /** The fixture as the buffer should show it: block by block the deliverable rows in normal form under
      the block's time, without the blocks whose time does not parse or is the epoch. */
  function NormalFixture(groups: seq<Group>, whitelist: Whitelist, epoch: string -> Option<int>): seq<Tick> {
    if groups == [] then []
    else
      var g := groups[|groups| - 1];
      NormalFixture(groups[..|groups| - 1], whitelist, epoch)
      + match epoch(g.timestamp)
        case None => []
        case Some(t) => if t == 0 then [] else NormalRows(g.rows, whitelist, t)
  }

  lemma {:induction false} DeliveredIsNormal(groups: seq<Group>, whitelist: Whitelist, epoch: string -> Option<int>)
    ensures Delivered(groups, whitelist, epoch) == NormalFixture(groups, whitelist, epoch)
  {
    if groups != [] {
      var g := groups[|groups| - 1];
      DeliveredIsNormal(groups[..|groups| - 1], whitelist, epoch);
      if epoch(g.timestamp).Some? {
        DeliveredRowsAreNormal(g.rows, whitelist, epoch(g.timestamp).value);
      }
    }
  }

  /** End to end, for every fixture: after a clean replay the ring buffer shows exactly the last `capacity`
      deliverable rows, normalized, in order, each under its own block's time. */
  lemma {:induction false} BufferHoldsTheFixture(
      ceiling: nat, events: seq<Row>, epoch: string -> Option<int>, before: seq<Step>,
      s0: State, steps: seq<Step>, s: State, i: nat, loop: Loop, capacity: nat)
    requires CleanReplay(ceiling, Script(Groups(events), epoch), before, s0, steps, s, i, loop)
    ensures LastN(Consume(s.members[i].c.sent, loop).ticks, capacity)
         == LastN(NormalFixture(Reached(Groups(events), epoch, loop.heads), loop.whitelist, epoch), capacity)
  {
    Fidelity(ceiling, events, epoch, before, s0, steps, s, i, loop);
    DeliveredIsNormal(Reached(Groups(events), epoch, loop.heads), loop.whitelist, epoch);
  }

  // Malformed rows.

  /** The rows one would want in the buffer: deliverable, well-formed, and as their own columns spell them. */
  function PlainRows(rows: seq<Row>, whitelist: Whitelist, timestamp: int): seq<Tick> {
    if rows == [] then []
    else
      var row := rows[|rows| - 1];
      PlainRows(rows[..|rows| - 1], whitelist, timestamp)
      + if Deliverable(row, whitelist) && WellFormed(row)
        then [PlainForm(row, whitelist[Lower(row.pool)], timestamp)] else []
  }

  function PlainFixture(groups: seq<Group>, whitelist: Whitelist, epoch: string -> Option<int>): seq<Tick> {
    if groups == [] then []
    else
      var g := groups[|groups| - 1];
      PlainFixture(groups[..|groups| - 1], whitelist, epoch)
      + match epoch(g.timestamp)
        case None => []
        case Some(t) => if t == 0 then [] else PlainRows(g.rows, whitelist, t)
  }

  /** No row with a malformed column is deliverable. */
  predicate NoneMalformed(rows: seq<Row>, whitelist: Whitelist) {
    forall k :: 0 <= k < |rows| ==> Deliverable(rows[k], whitelist) ==> WellFormed(rows[k])
  }

  predicate BlockArrives(g: Group, epoch: string -> Option<int>) {
    epoch(g.timestamp).Some? && epoch(g.timestamp).value != 0
  }

  predicate NoneMalformedArrive(groups: seq<Group>, whitelist: Whitelist, epoch: string -> Option<int>) {
    forall i :: 0 <= i < |groups| ==> BlockArrives(groups[i], epoch) ==> NoneMalformed(groups[i].rows, whitelist)
  }

  lemma MalformedStep(front: seq<Row>, row: Row, whitelist: Whitelist)
    ensures NoneMalformed(front + [row], whitelist) <==>
            NoneMalformed(front, whitelist) && (Deliverable(row, whitelist) ==> WellFormed(row))
  {
    hide Deliverable, WellFormed;
    var all := front + [row];
    assert all[|front|] == row;
    assert forall k :: 0 <= k < |front| ==> front[k] == all[k];
  }

  lemma {:induction false} PlainRowsIff(rows: seq<Row>, whitelist: Whitelist, timestamp: int)
    ensures |PlainRows(rows, whitelist, timestamp)| <= |NormalRows(rows, whitelist, timestamp)|
    ensures |PlainRows(rows, whitelist, timestamp)| == |NormalRows(rows, whitelist, timestamp)| <==>
            NoneMalformed(rows, whitelist)
    ensures NoneMalformed(rows, whitelist) ==>
            PlainRows(rows, whitelist, timestamp) == NormalRows(rows, whitelist, timestamp)
  {
    hide WellFormed, NoneMalformed, Normalize, PlainForm, Renderable, ColumnsReadable, IsTxHash, IsAddress;
    if rows == [] {
      NothingMalformed(whitelist);
    } else {
      var front, row := rows[..|rows| - 1], rows[|rows| - 1];
      PlainRowsIff(front, whitelist, timestamp);
      assert rows == front + [row];
      MalformedStep(front, row, whitelist);
      if Deliverable(row, whitelist) && WellFormed(row) {
        RenderableHasAmounts(row);
        WellFormedIsPlain(row, whitelist[Lower(row.pool)], timestamp);
      }
    }
  }

  lemma NothingMalformed(whitelist: Whitelist)
    ensures NoneMalformed([], whitelist)
  {
  }

  lemma {:induction false} PlainFixtureIff(groups: seq<Group>, whitelist: Whitelist, epoch: string -> Option<int>)
    ensures |PlainFixture(groups, whitelist, epoch)| <= |NormalFixture(groups, whitelist, epoch)|
    ensures |PlainFixture(groups, whitelist, epoch)| == |NormalFixture(groups, whitelist, epoch)| <==>
            NoneMalformedArrive(groups, whitelist, epoch)
    ensures NoneMalformedArrive(groups, whitelist, epoch) ==>
            PlainFixture(groups, whitelist, epoch) == NormalFixture(groups, whitelist, epoch)
  {
    hide NoneMalformed, PlainRows, NormalRows;
    if groups != [] {
      var front, g := groups[..|groups| - 1], groups[|groups| - 1];
      PlainFixtureIff(front, whitelist, epoch);
      assert forall k :: 0 <= k < |front| ==> front[k] == groups[k];
      if BlockArrives(g, epoch) {
        PlainRowsIff(g.rows, whitelist, epoch(g.timestamp).value);
      }
    }
  }

  /** After a clean replay exactly the well-formed rows have arrived, as their own columns spell them, if
      and only if no row with a malformed column is deliverable in a block that arrives. */
  lemma {:induction false} OnlyWellFormedArriveIff(
      ceiling: nat, events: seq<Row>, epoch: string -> Option<int>, before: seq<Step>,
      s0: State, steps: seq<Step>, s: State, i: nat, loop: Loop)
    requires CleanReplay(ceiling, Script(Groups(events), epoch), before, s0, steps, s, i, loop)
    ensures var blocks := Reached(Groups(events), epoch, loop.heads);
            Consume(s.members[i].c.sent, loop).ticks == PlainFixture(blocks, loop.whitelist, epoch)
            <==> NoneMalformedArrive(blocks, loop.whitelist, epoch)
  {
    Fidelity(ceiling, events, epoch, before, s0, steps, s, i, loop);
    DeliveredIsNormal(Reached(Groups(events), epoch, loop.heads), loop.whitelist, epoch);
    PlainFixtureIff(Reached(Groups(events), epoch, loop.heads), loop.whitelist, epoch);
  }

  /** Feeding a fresh buffer leaves the newest `capacity` delivered events in it, oldest first. */
  method IngestInto(messages: seq<Message>, loop: Loop, capacity: nat)
    returns (contents: seq<Tick>)
    requires capacity > 0
    ensures contents == LastN(Consume(messages, loop).ticks, capacity)
  {
    var buffer := new DequeRingBuffer<Tick>(capacity);
    var blocks, ingested, crashed := RunRealtime(messages, loop, buffer);
    contents := buffer.ReadAll();
  }

  // Block order.

  /** The most recent head among `actions`. */
  function LatestHead(actions: seq<Action>): Option<Header> {
    if actions == [] then None
    else if actions[|actions| - 1].HeadAction? then Some(actions[|actions| - 1].header)
    else LatestHead(actions[..|actions| - 1])
  }

  ghost predicate UnderOwnHead(actions: seq<Action>) {
    forall k :: 0 <= k < |actions| && actions[k].LogAction? ==>
      LatestHead(actions[..k]).Some? && LatestHead(actions[..k]).value.number == actions[k].log.blockNumber
  }

  lemma UnderOwnHeadPush(actions: seq<Action>, a: Action)
    requires UnderOwnHead(actions)
    requires a.LogAction? ==> LatestHead(actions).Some? && LatestHead(actions).value.number == a.log.blockNumber
    ensures UnderOwnHead(actions + [a])
    ensures a.HeadAction? ==> LatestHead(actions + [a]) == Some(a.header)
    ensures a.LogAction? ==> LatestHead(actions + [a]) == LatestHead(actions)
  {
    var all := actions + [a];
    assert all[..|actions|] == actions;
    forall k | 0 <= k < |all| && all[k].LogAction?
      ensures LatestHead(all[..k]).Some? && LatestHead(all[..k]).value.number == all[k].log.blockNumber
    {
      if k < |actions| {
        assert all[..k] == actions[..k];
      }
    }
  }

  lemma {:induction false} RowsUnderHead(done: seq<Action>, rows: seq<Row>, number: int)
    requires UnderOwnHead(done) && LatestHead(done).Some? && LatestHead(done).value.number == Hex(number)
    requires forall k :: 0 <= k < |rows| ==> rows[k].blockNumber == number
    ensures UnderOwnHead(done + LogActions(rows)) && LatestHead(done + LogActions(rows)) == LatestHead(done)
  {
    if rows == [] {
      assert done + [] == done;
    } else {
      var front, log := rows[..|rows| - 1], BuildRawLog(rows[|rows| - 1]);
      RowsUnderHead(done, front, number);
      if log.Some? {
        assert done + LogActions(rows) == (done + LogActions(front)) + [LogAction(log.value)];
        UnderOwnHeadPush(done + LogActions(front), LogAction(log.value));
      } else {
        assert LogActions(rows) == LogActions(front);
      }
    }
  }

  lemma BlockUnderHead(done: seq<Action>, g: Group, epoch: string -> Option<int>)
    requires UnderOwnHead(done) && IsGroup(g)
    ensures UnderOwnHead(done + BlockScript(g, epoch))
  {
    var header := BuildBlockHeader(g.number, g.timestamp, epoch);
    if header.None? {
      assert done + [] == done;
    } else {
      var head := HeadAction(header.value);
      UnderOwnHeadPush(done, head);
      RowsUnderHead(done + [head], g.rows, g.number);
      assert done + BlockScript(g, epoch) == (done + [head]) + LogActions(g.rows);
    }
  }

  lemma {:induction false} GroupsUnderHead(groups: seq<Group>, epoch: string -> Option<int>)
    requires forall k :: 0 <= k < |groups| ==> IsGroup(groups[k])
    ensures UnderOwnHead(Script(groups, epoch))
  {
    if groups != [] {
      GroupsUnderHead(groups[..|groups| - 1], epoch);
      BlockUnderHead(Script(groups[..|groups| - 1], epoch), groups[|groups| - 1], epoch);
    }
  }

  /** Every log that is fanned out follows its own block's head, with no other head in between. */
  lemma LogsFollowTheirHead(events: seq<Row>, epoch: string -> Option<int>)
    ensures UnderOwnHead(Script(Groups(events), epoch))
  {
    GroupsIsGrouping(events);
    GroupsUnderHead(Groups(events), epoch);
  }
}
