/** Every run of tools/mock_wss/server.py: clients come and go, send requests and are slow, while the
    replay loop fans out its script. Any list of possible steps is a run. */
module ServerRuns {
  import opened Prelude
  import opened Events
  import opened BlockGroups
  import opened ClientQueues

  /** A client and whether its connection is still open. */
  datatype Member = Member(c: ClientState, live: bool)

  datatype State = State(
    ceiling: nat,
    members: seq<Member>,
    script: seq<Action>,
    played: nat,
    started: bool,
    droppedTotal: nat,
    nextSub: nat)

  datatype Step =
    | Connect
    | Disconnect(client: nat)
    | OnMessage(client: nat, requestId: int, request: Request)
    | Replay
    | WriterTakes(client: nat)
    | WriterSent(client: nat)

  function Start(ceiling: nat, script: seq<Action>): State {
    State(ceiling, [], script, 0, false, 0, 0)
  }

  function FanMember(m: Member, a: Action, ceiling: nat): Member
    requires ceiling > 0
  {
    if m.live then m.(c := FanOut(m.c, a, ceiling)) else m
  }

  function FanMembers(ms: seq<Member>, a: Action, ceiling: nat): seq<Member>
    requires ceiling > 0
  {
    seq(|ms|, i requires 0 <= i < |ms| => FanMember(ms[i], a, ceiling))
  }

  /** How often `enqueue` reports an eviction during one client's share of a fan-out. */
  function Evictions(c: ClientState, subs: seq<Subscription>, a: Action, ceiling: nat): nat
    requires ceiling > 0
  {
    if subs == [] then 0
    else
      var before := FanOver(c, subs[..|subs| - 1], a, ceiling);
      Evictions(c, subs[..|subs| - 1], a, ceiling)
      + if Matches(subs[|subs| - 1], a) && |before.queue| >= ceiling then 1 else 0
  }

  function AllEvictions(ms: seq<Member>, a: Action, ceiling: nat): nat
    requires ceiling > 0
  {
    if ms == [] then 0
    else
      var m := ms[|ms| - 1];
      AllEvictions(ms[..|ms| - 1], a, ceiling) + if m.live then Evictions(m.c, m.c.subs, a, ceiling) else 0
  }

  predicate Live(s: State, i: nat) {
    i < |s.members| && s.members[i].live
  }

  function SetClient(s: State, i: nat, c: ClientState): State
    requires i < |s.members|
  {
    s.(members := s.members[i := s.members[i].(c := c)])
  }

  function Apply(s: State, step: Step): Option<State>
    requires s.ceiling > 0
  {
    match step
    case Connect =>
      Some(s.(members := s.members + [Member(NEW_CLIENT, true)]))
    case Disconnect(i) =>
      if Live(s, i) then Some(s.(members := s.members[i := s.members[i].(live := false)])) else None
    case OnMessage(i, id, r) =>
      if !Live(s, i) then None
      else
        Some(SetClient(s, i, Handle(s.members[i].c, id, r, s.nextSub, s.ceiling))
             .(nextSub := s.nextSub + 1, started := s.started || r.Subscribe?))
    case Replay =>
      if !s.started || s.played >= |s.script| then None
      else
        var a := s.script[s.played];
        Some(s.(members := FanMembers(s.members, a, s.ceiling),
                played := s.played + 1,
                droppedTotal := s.droppedTotal + AllEvictions(s.members, a, s.ceiling)))
    case WriterTakes(i) =>
      if Live(s, i) && s.members[i].c.queue != [] && s.members[i].c.inFlight.None?
      then Some(SetClient(s, i, Take(s.members[i].c))) else None
    case WriterSent(i) =>
      if Live(s, i) && s.members[i].c.inFlight.Some?
      then Some(SetClient(s, i, Sent(s.members[i].c))) else None
  }

  function Run(s: State, steps: seq<Step>): (r: Option<State>)
    requires s.ceiling > 0
    ensures r.Some? ==> r.value.ceiling == s.ceiling && r.value.script == s.script
  {
    if steps == [] then Some(s)
    else
      var before := Run(s, steps[..|steps| - 1]);
      if before.None? then None else Apply(before.value, steps[|steps| - 1])
  }

  function InFlight(c: ClientState): seq<Message> {
    if c.inFlight.Some? then [c.inFlight.value] else []
  }

  /** What one client's counters and queue always say about everything enqueued to it. */
  ghost predicate ClientInv(c: ClientState, ceiling: nat) {
    var gone := |c.enqueued| - |c.queue|;
    && |c.queue| <= ceiling
    && |c.enqueued| == |c.sent| + |InFlight(c)| + |c.queue| + c.dropped
    && c.queue == c.enqueued[gone..]
    && IsSubsequence(c.sent + InFlight(c), c.enqueued[..gone])
    && c.noticeDrops <= c.dropped
  }

  lemma EnqueueKeepsInv(c: ClientState, m: Message, ceiling: nat)
    requires ceiling > 0 && ClientInv(c, ceiling)
    ensures ClientInv(Enqueue(c, m, ceiling), ceiling)
  {
    hide IsSubsequence;
    var c' := Enqueue(c, m, ceiling);
    var gone := |c.enqueued| - |c.queue|;
    if |c.queue| >= ceiling {
      assert c'.enqueued[..gone + 1] == c.enqueued[..gone] + [c.enqueued[gone]];
      SubsequenceGrow(c.sent + InFlight(c), c.enqueued[..gone], c.enqueued[gone]);
    } else {
      assert c'.enqueued[..gone] == c.enqueued[..gone];
    }
  }

  lemma TakeKeepsInv(c: ClientState, ceiling: nat)
    requires c.queue != [] && c.inFlight.None? && ClientInv(c, ceiling)
    ensures ClientInv(Take(c), ceiling)
  {
    hide IsSubsequence;
    var gone := |c.enqueued| - |c.queue|;
    assert c.sent + [] == c.sent;
    assert c.enqueued[..gone + 1] == c.enqueued[..gone] + [c.queue[0]];
    SubsequenceAppend(c.sent, c.enqueued[..gone], [c.queue[0]]);
  }

  lemma SentKeepsInv(c: ClientState, ceiling: nat)
    requires c.inFlight.Some? && ClientInv(c, ceiling)
    ensures ClientInv(Sent(c), ceiling)
  {
    assert Sent(c).sent + [] == c.sent + InFlight(c);
  }

  lemma {:induction false} FanOverKeepsInv(c: ClientState, subs: seq<Subscription>, a: Action, ceiling: nat)
    requires ceiling > 0 && ClientInv(c, ceiling)
    ensures ClientInv(FanOver(c, subs, a, ceiling), ceiling)
    ensures FanOver(c, subs, a, ceiling).noticeDrops == c.noticeDrops + Evictions(c, subs, a, ceiling)
  {
    if subs != [] {
      var s := subs[|subs| - 1];
      FanOverKeepsInv(c, subs[..|subs| - 1], a, ceiling);
      EnqueueKeepsInv(FanOver(c, subs[..|subs| - 1], a, ceiling), Notice(s.id, a), ceiling);
    }
  }

  function Clients(ms: seq<Member>): seq<ClientState> {
    seq(|ms|, i requires 0 <= i < |ms| => ms[i].c)
  }

  ghost predicate Inv(s: State) {
    && s.ceiling > 0 && s.played <= |s.script|
    && (forall i :: 0 <= i < |s.members| ==> ClientInv(s.members[i].c, s.ceiling))
    && s.droppedTotal == NoticeDrops(Clients(s.members))
  }

  lemma DropsOfClients(ms: seq<Member>)
    requires ms != []
    ensures NoticeDrops(Clients(ms)) == NoticeDrops(Clients(ms[..|ms| - 1])) + ms[|ms| - 1].c.noticeDrops
  {
    var cs, n := Clients(ms), |ms| - 1;
    assert |cs| == n + 1 && cs[n] == ms[n].c;
    assert cs[..n] == Clients(ms[..n]);
  }

  lemma FanMembersStep(ms: seq<Member>, a: Action, ceiling: nat)
    requires ceiling > 0 && ms != []
    ensures |FanMembers(ms, a, ceiling)| == |ms|
    ensures FanMembers(ms, a, ceiling)[..|ms| - 1] == FanMembers(ms[..|ms| - 1], a, ceiling)
    ensures FanMembers(ms, a, ceiling)[|ms| - 1] == FanMember(ms[|ms| - 1], a, ceiling)
  {
  }

  lemma DropsOfMember(m: Member, a: Action, ceiling: nat)
    requires ceiling > 0 && ClientInv(m.c, ceiling)
    ensures FanMember(m, a, ceiling).c.noticeDrops
         == m.c.noticeDrops + if m.live then Evictions(m.c, m.c.subs, a, ceiling) else 0
  {
    hide ClientInv, FanOver, Evictions;
    FanOverKeepsInv(m.c, m.c.subs, a, ceiling);
  }

  lemma {:induction false} DropsOfFan(ms: seq<Member>, a: Action, ceiling: nat)
    requires ceiling > 0 && forall i :: 0 <= i < |ms| ==> ClientInv(ms[i].c, ceiling)
    ensures NoticeDrops(Clients(FanMembers(ms, a, ceiling))) == NoticeDrops(Clients(ms)) + AllEvictions(ms, a, ceiling)
  {
    hide Clients, FanMembers, FanMember, ClientInv, NoticeDrops;
    if ms == [] {
      NothingToFan(a, ceiling);
    } else {
      var n := |ms| - 1;
      DropsOfFan(ms[..n], a, ceiling);
      FanMembersStep(ms, a, ceiling);
      DropsOfClients(ms);
      DropsOfClients(FanMembers(ms, a, ceiling));
      DropsOfMember(ms[n], a, ceiling);
    }
  }

  lemma NothingToFan(a: Action, ceiling: nat)
    requires ceiling > 0
    ensures NoticeDrops(Clients(FanMembers([], a, ceiling))) == 0 && NoticeDrops(Clients([])) == 0
  {
  }

  lemma FanMemberKeepsInv(m: Member, a: Action, ceiling: nat)
    requires ceiling > 0 && ClientInv(m.c, ceiling)
    ensures ClientInv(FanMember(m, a, ceiling).c, ceiling)
  {
    FanOverKeepsInv(m.c, m.c.subs, a, ceiling);
  }

  lemma ReplayKeepsInv(s: State, s': State)
    requires Inv(s) && Apply(s, Replay) == Some(s')
    ensures Inv(s')
  {
    var a := s.script[s.played];
    DropsOfFan(s.members, a, s.ceiling);
    forall i | 0 <= i < |s'.members| ensures ClientInv(s'.members[i].c, s.ceiling) {
      assert s'.members[i] == FanMember(s.members[i], a, s.ceiling);
      FanMemberKeepsInv(s.members[i], a, s.ceiling);
    }
  }

  lemma SetClientKeepsInv(s: State, i: nat, c: ClientState, s': State)
    requires Inv(s) && i < |s.members| && ClientInv(c, s.ceiling) && c.noticeDrops == s.members[i].c.noticeDrops
    requires s' == SetClient(s, i, c).(nextSub := s'.nextSub, started := s'.started)
    ensures Inv(s')
  {
    hide ClientInv;
    assert Clients(s'.members) == Clients(s.members)[i := c];
    NoticeDropsUpdate(Clients(s.members), i, c);
  }

  lemma HandleKeepsInv(c: ClientState, id: int, r: Request, newId: nat, ceiling: nat)
    requires ceiling > 0 && ClientInv(c, ceiling)
    ensures ClientInv(Handle(c, id, r, newId, ceiling), ceiling)
    ensures Handle(c, id, r, newId, ceiling).noticeDrops == c.noticeDrops
  {
    hide IsSubsequence;
    var c' := Handle(c, id, r, newId, ceiling);
    var subs := c'.subs;
    var reply := c'.enqueued[|c.enqueued|];
    assert c' == Enqueue(c.(subs := subs), reply, ceiling);
    EnqueueKeepsInv(c.(subs := subs), reply, ceiling);
  }

  lemma NewClientInv(ceiling: nat)
    ensures ClientInv(NEW_CLIENT, ceiling)
  {
  }

  lemma ConnectKeepsInv(s: State, s': State)
    requires Inv(s) && Apply(s, Connect) == Some(s')
    ensures Inv(s')
  {
    hide ClientInv, NoticeDrops;
    NewClientInv(s.ceiling);
    assert s'.members[..|s.members|] == s.members;
    DropsOfClients(s'.members);
  }

  lemma DisconnectKeepsInv(s: State, i: nat, s': State)
    requires Inv(s) && Apply(s, Disconnect(i)) == Some(s')
    ensures Inv(s')
  {
    hide ClientInv;
    assert Clients(s'.members) == Clients(s.members);
  }

  lemma StepKeepsInv(s: State, step: Step, s': State)
    requires Inv(s) && Apply(s, step) == Some(s')
    ensures Inv(s')
  {
    hide ClientInv;
    match step
    case Connect =>
      ConnectKeepsInv(s, s');
    case Disconnect(i) =>
      DisconnectKeepsInv(s, i, s');
    case OnMessage(i, id, r) =>
      HandleKeepsInv(s.members[i].c, id, r, s.nextSub, s.ceiling);
      SetClientKeepsInv(s, i, Handle(s.members[i].c, id, r, s.nextSub, s.ceiling), s');
    case Replay =>
      ReplayKeepsInv(s, s');
    case WriterTakes(i) =>
      TakeKeepsInv(s.members[i].c, s.ceiling);
      SetClientKeepsInv(s, i, Take(s.members[i].c), s');
    case WriterSent(i) =>
      SentKeepsInv(s.members[i].c, s.ceiling);
      SetClientKeepsInv(s, i, Sent(s.members[i].c), s');
  }

  lemma {:induction false} RunKeepsInv(s0: State, steps: seq<Step>, s: State)
    requires Inv(s0) && Run(s0, steps) == Some(s)
    ensures Inv(s)
  {
    if steps != [] {
      var before := Run(s0, steps[..|steps| - 1]).value;
      RunKeepsInv(s0, steps[..|steps| - 1], before);
      StepKeepsInv(before, steps[|steps| - 1], s);
    }
  }

  lemma ClientFacts(c: ClientState, ceiling: nat)
    requires ClientInv(c, ceiling)
    ensures IsSubsequence(c.sent + InFlight(c) + c.queue, c.enqueued)
    ensures c.dropped == 0 ==> c.sent + InFlight(c) + c.queue == c.enqueued
  {
    var gone := |c.enqueued| - |c.queue|;
    SubsequenceAppend(c.sent + InFlight(c), c.enqueued[..gone], c.queue);
    assert c.enqueued[..gone] + c.queue == c.enqueued;
    SubsequenceFull(c.sent + InFlight(c) + c.queue, c.enqueued);
  }

  /** The client queue invariant of every run: what was sent, is being sent and is queued is everything
      enqueued, in order, less the dropped; the queue is its newest part; and the global drop metric
      counts the evictions that notifications caused and no others. */
  lemma QueueInvariant(ceiling: nat, script: seq<Action>, steps: seq<Step>, s: State, i: nat)
    requires ceiling > 0 && Run(Start(ceiling, script), steps) == Some(s) && i < |s.members|
    ensures var c := s.members[i].c;
            && IsSubsequence(c.sent + InFlight(c) + c.queue, c.enqueued)
            && |c.queue| <= ceiling && |c.queue| <= |c.enqueued|
            && c.queue == c.enqueued[|c.enqueued| - |c.queue|..]
            && |c.enqueued| == |c.sent| + |InFlight(c)| + |c.queue| + c.dropped
            && (c.dropped == 0 ==> c.sent + InFlight(c) + c.queue == c.enqueued)
    ensures s.droppedTotal == NoticeDrops(Clients(s.members))
  {
    RunKeepsInv(Start(ceiling, script), steps, s);
    assert ClientInv(s.members[i].c, s.ceiling);
    ClientFacts(s.members[i].c, s.ceiling);
  }
}
