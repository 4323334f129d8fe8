/** tools/mock_wss/server.py: clients with bounded drop-oldest queues, their subscriptions, and the
    fan-out of the replayed blocks.

    `ClientState` is what one client object holds, plus the history its counters are judged against
    (everything enqueued and sent). These functions are what the objects of MockServer compute. */
module ClientQueues {
  import opened Prelude
  import opened HexText
  import opened Events
  import opened Replay
  import opened BlockGroups

  datatype Kind = NewHeads | Logs | OtherKind

  /** `addresses == None` matches every address. */
  datatype Subscription = Subscription(id: nat, kind: Kind, addresses: Option<set<string>>)

  /** What the replay loop fans out. */
  datatype Action = HeadAction(header: Header) | LogAction(log: Log)

  datatype Outcome = Subscribed(id: nat) | Removed(found: bool) | MethodNotFound

  datatype Message = Reply(requestId: int, outcome: Outcome) | Notice(sub: nat, result: Action)

  datatype ClientState = ClientState(
    queue: seq<Message>,
    subs: seq<Subscription>,
    dropped: nat,
    enqueued: seq<Message>,
    sent: seq<Message>,
    inFlight: Option<Message>,
    noticeDrops: nat)

  const NEW_CLIENT: ClientState := ClientState([], [], 0, [], [], None, 0)

  /** `enqueue`: the newest message is always placed; a full queue loses its oldest. */
  function Enqueue(c: ClientState, m: Message, ceiling: nat): ClientState
    requires ceiling > 0
  {
    var full := |c.queue| >= ceiling;
    c.(queue := (if full then c.queue[1..] else c.queue) + [m],
       dropped := c.dropped + if full then 1 else 0,
       enqueued := c.enqueued + [m],
       noticeDrops := c.noticeDrops + if full && m.Notice? then 1 else 0)
  }

  predicate Matches(s: Subscription, a: Action) {
    match a
    case HeadAction(_) => s.kind == NewHeads
    case LogAction(log) => s.kind == Logs && (s.addresses.None? || Lower(log.address) in s.addresses.value)
  }

  /** One action delivered to the listed subscriptions of one client. */
  function FanOver(c: ClientState, subs: seq<Subscription>, a: Action, ceiling: nat): ClientState
    requires ceiling > 0
  {
    if subs == [] then c
    else
      var s := subs[|subs| - 1];
      var before := FanOver(c, subs[..|subs| - 1], a, ceiling);
      if Matches(s, a) then Enqueue(before, Notice(s.id, a), ceiling) else before
  }

  function FanOut(c: ClientState, a: Action, ceiling: nat): ClientState
    requires ceiling > 0
  {
    FanOver(c, c.subs, a, ceiling)
  }

  /** `_writer`, before and after `ws.send`. */
  function Take(c: ClientState): ClientState
    requires c.queue != [] && c.inFlight.None?
  {
    c.(queue := c.queue[1..], inFlight := Some(c.queue[0]))
  }

  function Sent(c: ClientState): ClientState
    requires c.inFlight.Some?
  {
    c.(sent := c.sent + [c.inFlight.value], inFlight := None)
  }

  /** The `address` field of a logs filter. */
  datatype Filter = NoAddress | One(address: string) | Many(addresses: seq<string>)

  function Addresses(f: Filter): Option<set<string>> {
    match f
    case NoAddress => None
    case One(a) => Some({Lower(a)})
    case Many(as_) => if as_ == [] then None else Some(set a | a in as_ :: Lower(a))
  }

  datatype Request = Subscribe(kind: Kind, filter: Filter) | Unsubscribe(id: nat) | OtherMethod

  function WithoutSub(subs: seq<Subscription>, id: nat): seq<Subscription> {
    if subs == [] then []
    else WithoutSub(subs[..|subs| - 1], id) + if subs[|subs| - 1].id == id then [] else [subs[|subs| - 1]]
  }

  predicate HasSub(subs: seq<Subscription>, id: nat) {
    exists i :: 0 <= i < |subs| && subs[i].id == id
  }

  /** `_on_message`: the subscriptions change and a reply is queued. `newId` is the id a new
      subscription gets. */
  function Handle(c: ClientState, requestId: int, r: Request, newId: nat, ceiling: nat): ClientState
    requires ceiling > 0
  {
    match r
    case Subscribe(kind, filter) =>
      var s := Subscription(newId, kind, if kind == Logs then Addresses(filter) else None);
      Enqueue(c.(subs := c.subs + [s]), Reply(requestId, Subscribed(newId)), ceiling)
    case Unsubscribe(id) =>
      Enqueue(c.(subs := WithoutSub(c.subs, id)), Reply(requestId, Removed(HasSub(c.subs, id))), ceiling)
    case OtherMethod =>
      Enqueue(c, Reply(requestId, MethodNotFound), ceiling)
  }

  /** Evictions that notifications have caused, over all clients. */
  function NoticeDrops(cs: seq<ClientState>): nat {
    if cs == [] then 0 else NoticeDrops(cs[..|cs| - 1]) + cs[|cs| - 1].noticeDrops
  }

  lemma {:induction false} NoticeDropsUpdate(cs: seq<ClientState>, i: nat, c: ClientState)
    requires i < |cs|
    ensures NoticeDrops(cs[i := c]) == NoticeDrops(cs) - cs[i].noticeDrops + c.noticeDrops
  {
    var n := |cs| - 1;
    if i < n {
      assert cs[i := c][..n] == cs[..n][i := c];
      NoticeDropsUpdate(cs[..n], i, c);
    } else {
      assert cs[i := c][..n] == cs[..n];
    }
  }

  lemma {:induction false} FanOverKeepsSubs(c: ClientState, subs: seq<Subscription>, a: Action, ceiling: nat)
    requires ceiling > 0
    ensures FanOver(c, subs, a, ceiling).subs == c.subs
    ensures FanOver(c, subs, a, ceiling).sent == c.sent && FanOver(c, subs, a, ceiling).inFlight == c.inFlight
  {
    if subs != [] {
      FanOverKeepsSubs(c, subs[..|subs| - 1], a, ceiling);
    }
  }

  /** The actions a replay performs, in order: each block's head, then its rows that render; a block
      whose timestamp does not parse is skipped with all its rows. */
  function Script(groups: seq<Group>, epoch: string -> Option<int>): seq<Action> {
    if groups == [] then []
    else Script(groups[..|groups| - 1], epoch) + BlockScript(groups[|groups| - 1], epoch)
  }

  function BlockScript(g: Group, epoch: string -> Option<int>): seq<Action> {
    var header := BuildBlockHeader(g.number, g.timestamp, epoch);
    if header.None? then [] else [HeadAction(header.value)] + LogActions(g.rows)
  }

  function LogActions(rows: seq<Row>): seq<Action> {
    if rows == [] then []
    else
      var log := BuildRawLog(rows[|rows| - 1]);
      LogActions(rows[..|rows| - 1]) + if log.None? then [] else [LogAction(log.value)]
  }

  /** How many rows of a list can be rendered. */
  function RenderableCount(rows: seq<Row>): nat {
    if rows == [] then 0
    else RenderableCount(rows[..|rows| - 1]) + if Renderable(rows[|rows| - 1]) then 1 else 0
  }

  /** `events_sent` for a complete replay: one per block whose time parses and one per row of such a
      block whose amounts are in range. */
  function ExpectedSends(groups: seq<Group>, epoch: string -> Option<int>): nat {
    if groups == [] then 0
    else
      var g := groups[|groups| - 1];
      ExpectedSends(groups[..|groups| - 1], epoch)
      + if epoch(g.timestamp).Some? then 1 + RenderableCount(g.rows) else 0
  }

  lemma {:induction false} LogActionsCount(rows: seq<Row>)
    ensures |LogActions(rows)| == RenderableCount(rows)
  {
    if rows != [] {
      LogActionsCount(rows[..|rows| - 1]);
      RenderableIff(rows[|rows| - 1]);
    }
  }

  /** As many notifications are fanned out as there are dated blocks and renderable rows in them. */
  lemma {:induction false} SendsAreCounted(groups: seq<Group>, epoch: string -> Option<int>)
    ensures |Script(groups, epoch)| == ExpectedSends(groups, epoch)
  {
    if groups != [] {
      SendsAreCounted(groups[..|groups| - 1], epoch);
      LogActionsCount(groups[|groups| - 1].rows);
    }
  }

  /** A client after a list of actions, nothing else happening. */
  function FanAll(c: ClientState, actions: seq<Action>, ceiling: nat): ClientState
    requires ceiling > 0
  {
    if actions == [] then c
    else FanOut(FanAll(c, actions[..|actions| - 1], ceiling), actions[|actions| - 1], ceiling)
  }

  lemma FanAllStep(c: ClientState, actions: seq<Action>, a: Action, ceiling: nat)
    requires ceiling > 0
    ensures FanAll(c, actions + [a], ceiling) == FanOut(FanAll(c, actions, ceiling), a, ceiling)
  {
    assert (actions + [a])[..|actions|] == actions;
  }

  /** Every client after one action, and after a list of them. */
  function FanEach(cs: seq<ClientState>, a: Action, ceiling: nat): seq<ClientState>
    requires ceiling > 0
  {
    seq(|cs|, i requires 0 <= i < |cs| => FanOut(cs[i], a, ceiling))
  }

  function FanAllEach(cs: seq<ClientState>, actions: seq<Action>, ceiling: nat): seq<ClientState>
    requires ceiling > 0
  {
    seq(|cs|, i requires 0 <= i < |cs| => FanAll(cs[i], actions, ceiling))
  }

  lemma FanEachIs(was: seq<ClientState>, now: seq<ClientState>, a: Action, ceiling: nat)
    requires ceiling > 0 && |now| == |was| && forall k :: 0 <= k < |was| ==> now[k] == FanOut(was[k], a, ceiling)
    ensures now == FanEach(was, a, ceiling)
  {
  }

  lemma FanAllEachStep(cs: seq<ClientState>, actions: seq<Action>, a: Action, ceiling: nat)
    requires ceiling > 0
    ensures FanEach(FanAllEach(cs, actions, ceiling), a, ceiling) == FanAllEach(cs, actions + [a], ceiling)
  {
    forall i | 0 <= i < |cs|
      ensures FanAll(cs[i], actions + [a], ceiling) == FanOut(FanAll(cs[i], actions, ceiling), a, ceiling)
    {
      FanAllStep(cs[i], actions, a, ceiling);
    }
  }

  lemma FanAllEachNil(cs: seq<ClientState>, ceiling: nat)
    requires ceiling > 0
    ensures FanAllEach(cs, [], ceiling) == cs
  {
  }
}
