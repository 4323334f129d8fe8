/** The objects of tools/mock_wss/server.py, proved against the functions of ClientQueues. */
module MockServer {
  import opened Prelude
  import opened HexText
  import opened Events
  import opened Replay
  import opened BlockGroups
  import opened ClientQueues

  class Client {
    const ceiling: nat
    var queue: seq<Message>
    var subs: seq<Subscription>
    var dropped: nat
    ghost var enqueued: seq<Message>
    ghost var sent: seq<Message>
    ghost var inFlight: Option<Message>
    ghost var noticeDrops: nat

    ghost function View(): ClientState
      reads this
    {
      ClientState(queue, subs, dropped, enqueued, sent, inFlight, noticeDrops)
    }

    constructor (ceiling: nat)
      requires ceiling > 0
      ensures View() == NEW_CLIENT && this.ceiling == ceiling
    {
      this.ceiling := ceiling;
      queue, subs, dropped := [], [], 0;
      enqueued, sent, inFlight, noticeDrops := [], [], None, 0;
    }

    method Enqueue(message: Message) returns (evicted: bool)
      requires ceiling > 0
      modifies this
      ensures View() == ClientQueues.Enqueue(old(View()), message, ceiling)
      ensures evicted <==> old(|queue|) >= ceiling
    {
      evicted := false;
      if |queue| >= ceiling {
        queue := queue[1..];
        evicted := true;
        dropped := dropped + 1;
        if message.Notice? {
          noticeDrops := noticeDrops + 1;
        }
      }
      queue := queue + [message];
      enqueued := enqueued + [message];
    }
  }

  class Server {
    const ceiling: nat
    const clients: seq<Client>
    var currentBlock: int
    var eventsSent: nat
    var droppedTotal: nat

    ghost predicate Valid() {
      0 < ceiling
      && (forall i :: 0 <= i < |clients| ==> clients[i].ceiling == ceiling)
      && (forall i, j :: 0 <= i < j < |clients| ==> clients[i] != clients[j])
    }

    ghost function Views(): seq<ClientState>
      reads this, clients
    {
      seq(|clients|, i requires 0 <= i < |clients| reads this, clients => clients[i].View())
    }

    /** What `droppedTotal` says beyond the evictions that notifications caused: never changes. */
    ghost function Excess(): int
      reads this, clients
    {
      droppedTotal - NoticeDrops(Views())
    }

    constructor (ceiling: nat, clients: seq<Client>)
      requires ceiling > 0
      requires forall i :: 0 <= i < |clients| ==> clients[i].ceiling == ceiling
      requires forall i, j :: 0 <= i < j < |clients| ==> clients[i] != clients[j]
      ensures Valid() && this.clients == clients && this.ceiling == ceiling
      ensures currentBlock == 0 && eventsSent == 0 && droppedTotal == 0
    {
      this.ceiling := ceiling;
      this.clients := clients;
      currentBlock, eventsSent, droppedTotal := 0, 0, 0;
    }

    /** One client's share of a fan-out. */
    method Notify(client: Client, a: Action)
      requires ceiling > 0 && client.ceiling == ceiling
      modifies this`droppedTotal, client
      ensures client.View() == ClientQueues.FanOut(old(client.View()), a, ceiling)
      ensures droppedTotal == old(droppedTotal) + client.noticeDrops - old(client.noticeDrops)
    {
      var subs := client.subs;
      for j := 0 to |subs|
        invariant client.View() == FanOver(old(client.View()), subs[..j], a, ceiling)
        invariant droppedTotal == old(droppedTotal) + client.noticeDrops - old(client.noticeDrops)
      {
        assert subs[..j + 1][..j] == subs[..j];
        if Matches(subs[j], a) {
          var evicted := client.Enqueue(Notice(subs[j].id, a));
          if evicted {
            droppedTotal := droppedTotal + 1;
          }
        }
      }
      assert subs[..|subs|] == subs;
    }

    /** `_fanout_head` and `_fanout_log`: every matching subscription of every client is notified. */
    method FanOut(a: Action)
      requires Valid()
      modifies this`droppedTotal, clients
      ensures Views() == FanEach(old(Views()), a, ceiling)
      ensures Excess() == old(Excess())
    {
      hide ClientQueues.FanOut, FanEach, NoticeDrops;
      ghost var was := Views();
      ghost var now := was;
      for i := 0 to |clients|
        invariant Views() == now && |now| == |was|
        invariant forall k :: 0 <= k < |was| ==>
                    now[k] == if k < i then ClientQueues.FanOut(was[k], a, ceiling) else was[k]
        invariant droppedTotal == old(droppedTotal) + NoticeDrops(now) - NoticeDrops(was)
      {
        assert clients[i].View() == now[i];
        Notify(clients[i], a);
        NoticeDropsUpdate(now, i, clients[i].View());
        ghost var next := now[i := clients[i].View()];
        assert forall k :: 0 <= k < |clients| && k != i ==> clients[k].View() == now[k];
        now := next;
      }
      FanEachIs(was, now, a, ceiling);
    }

    /** `_replay_loop` with every client already connected and nothing else running. */
    method ReplayLoop(events: seq<Row>, epoch: string -> Option<int>)
      requires Valid()
      modifies this`currentBlock, this`eventsSent, this`droppedTotal, clients
      ensures Views() == FanAllEach(old(Views()), Script(Groups(events), epoch), ceiling)
      ensures eventsSent == old(eventsSent) + ExpectedSends(Groups(events), epoch)
      ensures Excess() == old(Excess())
    {
      var groups := IterBlockGroups(events);
      ghost var was := Views();
      FanAllEachNil(was, ceiling);
      for i := 0 to |groups|
        invariant Views() == FanAllEach(was, Script(groups[..i], epoch), ceiling)
        invariant eventsSent == old(eventsSent) + |Script(groups[..i], epoch)|
        invariant Excess() == old(Excess())
      {
        assert groups[..i + 1][..i] == groups[..i];
        ReplayBlock(groups[i], epoch, was, Script(groups[..i], epoch));
      }
      assert groups[..|groups|] == groups;
      SendsAreCounted(groups, epoch);
    }

    /** One iteration of `_replay_loop`: a block without a header is skipped with its rows. */
    method ReplayBlock(g: Group, epoch: string -> Option<int>, ghost was: seq<ClientState>, ghost done: seq<Action>)
      requires Valid() && Views() == FanAllEach(was, done, ceiling)
      modifies this`currentBlock, this`eventsSent, this`droppedTotal, clients
      ensures Views() == FanAllEach(was, done + BlockScript(g, epoch), ceiling)
      ensures eventsSent == old(eventsSent) + |BlockScript(g, epoch)|
      ensures Excess() == old(Excess())
      ensures currentBlock == if BlockScript(g, epoch) == [] then old(currentBlock) else g.number
    {
      var header := BuildBlockHeader(g.number, g.timestamp, epoch);
      if header.None? {
        assert done + BlockScript(g, epoch) == done;
        return;
      }
      var head := HeadAction(header.value);
      assert done + BlockScript(g, epoch) == done + [head] + LogActions(g.rows);
      currentBlock := g.number;
      Send(head, was, done);
      ReplayRows(g.rows, was, done + [head]);
    }

    /** The rows of one block; a row that does not render is skipped. */
    method ReplayRows(rows: seq<Row>, ghost was: seq<ClientState>, ghost done: seq<Action>)
      requires Valid() && Views() == FanAllEach(was, done, ceiling)
      modifies this`eventsSent, this`droppedTotal, clients
      ensures Views() == FanAllEach(was, done + LogActions(rows), ceiling)
      ensures eventsSent == old(eventsSent) + |LogActions(rows)|
      ensures Excess() == old(Excess())
    {
      hide BuildRawLog, FanAllEach;
      assert done + [] == done;
      for j := 0 to |rows|
        invariant Views() == FanAllEach(was, done + LogActions(rows[..j]), ceiling)
        invariant eventsSent == old(eventsSent) + |LogActions(rows[..j])|
        invariant Excess() == old(Excess())
      {
        assert rows[..j + 1][..j] == rows[..j];
        ghost var before := done + LogActions(rows[..j]);
        var log := BuildRawLog(rows[j]);
        if log.None? {
          assert done + LogActions(rows[..j + 1]) == before;
          continue;
        }
        Send(LogAction(log.value), was, before);
        assert done + LogActions(rows[..j + 1]) == before + [LogAction(log.value)];
      }
      assert rows[..|rows|] == rows;
    }

    /** A fan-out, counted. */
    method Send(a: Action, ghost was: seq<ClientState>, ghost done: seq<Action>)
      requires Valid() && Views() == FanAllEach(was, done, ceiling)
      modifies this`eventsSent, this`droppedTotal, clients
      ensures Views() == FanAllEach(was, done + [a], ceiling)
      ensures eventsSent == old(eventsSent) + 1 && Excess() == old(Excess())
    {
      FanOut(a);
      eventsSent := eventsSent + 1;
      FanAllEachStep(was, done, a, ceiling);
    }
  }
}
