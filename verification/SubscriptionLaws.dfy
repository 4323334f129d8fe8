/** What a subscription of tools/mock_wss/server.py is served, from its request on, in every run: the played
    actions that were asked for, in order, and nothing else. */
module SubscriptionLaws {
  import opened Prelude
  import opened HexText
  import opened Events
  import opened BlockGroups
  import opened ClientQueues
  import opened ServerRuns

  /** What the request asks for. */
  predicate Wanted(kind: Kind, filter: Filter, a: Action) {
    match a
    case HeadAction(_) => kind == NewHeads
    case LogAction(log) =>
      kind == Logs &&
      match filter
      case NoAddress => true
      case One(address) => Lower(address) == Lower(log.address)
      case Many(addresses) =>
        addresses == [] || exists k :: 0 <= k < |addresses| && Lower(addresses[k]) == Lower(log.address)
  }

  function WantedOf(kind: Kind, filter: Filter, actions: seq<Action>): seq<Action> {
    if actions == [] then []
    else
      var last := actions[|actions| - 1];
      WantedOf(kind, filter, actions[..|actions| - 1]) + if Wanted(kind, filter, last) then [last] else []
  }

  /** What was enqueued under one subscription id. */
  function Served(ms: seq<Message>, id: nat): seq<Action> {
    if ms == [] then []
    else
      var m := ms[|ms| - 1];
      Served(ms[..|ms| - 1], id) + if m.Notice? && m.sub == id then [m.result] else []
  }

  lemma ServedPush(ms: seq<Message>, m: Message, id: nat)
    ensures Served(ms + [m], id) == Served(ms, id) + if m.Notice? && m.sub == id then [m.result] else []
  {
    assert (ms + [m])[..|ms|] == ms;
  }

  function SubscriptionOf(id: nat, kind: Kind, filter: Filter): Subscription {
    Subscription(id, kind, if kind == Logs then Addresses(filter) else None)
  }

  /** The address filter lets through exactly the logs that were asked for, whatever their case. */
  lemma MatchesWanted(id: nat, kind: Kind, filter: Filter, a: Action)
    ensures Matches(SubscriptionOf(id, kind, filter), a) <==> Wanted(kind, filter, a)
  {
    if a.LogAction? && kind == Logs && filter.Many? && filter.addresses != [] {
      var as_ := filter.addresses;
      var lowered := set x | x in as_ :: Lower(x);
      if Lower(a.log.address) in lowered {
        var x :| x in as_ && Lower(x) == Lower(a.log.address);
        var k :| 0 <= k < |as_| && as_[k] == x;
      }
    }
  }

  // Subscription ids.

  ghost predicate DistinctIds(subs: seq<Subscription>) {
    forall j, k :: 0 <= j < k < |subs| ==> subs[j].id != subs[k].id
  }

  ghost predicate IdsBelow(c: ClientState, next: nat) {
    && DistinctIds(c.subs)
    && (forall k :: 0 <= k < |c.subs| ==> c.subs[k].id < next)
    && (forall k :: 0 <= k < |c.enqueued| && c.enqueued[k].Notice? ==> c.enqueued[k].sub < next)
  }

  ghost predicate IdsFresh(s: State) {
    forall i :: 0 <= i < |s.members| ==> IdsBelow(s.members[i].c, s.nextSub)
  }

  lemma {:induction false} FanKeepsIds(c: ClientState, subs: seq<Subscription>, a: Action, ceiling: nat, next: nat)
    requires ceiling > 0 && IdsBelow(c, next) && forall k :: 0 <= k < |subs| ==> subs[k].id < next
    ensures IdsBelow(FanOver(c, subs, a, ceiling), next)
  {
    if subs != [] {
      FanKeepsIds(c, subs[..|subs| - 1], a, ceiling, next);
    }
  }

  lemma {:induction false} RemainingSubs(subs: seq<Subscription>, id: nat)
    ensures forall s :: s in WithoutSub(subs, id) <==> s in subs && s.id != id
    ensures IsSubsequence(WithoutSub(subs, id), subs)
  {
    hide IsSubsequence;
    if subs == [] {
      NothingFromNothing();
    } else {
      var front, last := subs[..|subs| - 1], subs[|subs| - 1];
      RemainingSubs(front, id);
      assert subs == front + [last];
      if last.id == id {
        SubsequenceGrow(WithoutSub(front, id), front, last);
        assert WithoutSub(front, id) + [] == WithoutSub(front, id);
      } else {
        SubsequencePush(WithoutSub(front, id), front, last);
      }
    }
  }

  lemma NothingFromNothing()
    ensures IsSubsequence<Subscription>([], [])
  {
  }

  lemma DistinctPush(front: seq<Subscription>, last: Subscription)
    ensures DistinctIds(front + [last]) <==> DistinctIds(front) && forall s :: s in front ==> s.id != last.id
  {
    var all := front + [last];
    if DistinctIds(all) {
      assert forall j :: 0 <= j < |front| ==> all[j] == front[j];
      forall s | s in front ensures s.id != last.id {
        var k :| 0 <= k < |front| && front[k] == s;
        assert all[k].id != all[|front|].id;
      }
    }
    if DistinctIds(front) && forall s :: s in front ==> s.id != last.id {
      forall j, k | 0 <= j < k < |all| ensures all[j].id != all[k].id {
        assert all[j] in front;
      }
    }
  }

  lemma {:induction false} RemainingDistinct(subs: seq<Subscription>, id: nat)
    requires DistinctIds(subs)
    ensures DistinctIds(WithoutSub(subs, id))
  {
    hide DistinctIds;
    if subs == [] {
      assert WithoutSub(subs, id) == subs;
    } else {
      var front, last := subs[..|subs| - 1], subs[|subs| - 1];
      assert subs == front + [last];
      DistinctPush(front, last);
      RemainingDistinct(front, id);
      RemainingSubs(front, id);
      DistinctPush(WithoutSub(front, id), last);
      assert WithoutSub(front, id) + [] == WithoutSub(front, id);
    }
  }

  lemma HasSubIs(subs: seq<Subscription>, id: nat)
    ensures HasSub(subs, id) <==> exists s :: s in subs && s.id == id
  {
    if s :| s in subs && s.id == id {
      var k :| 0 <= k < |subs| && subs[k] == s;
      assert subs[k].id == id;
    }
  }

  /** Unsubscribing removes exactly the subscription that is named, keeps the others in order, and answers
      whether there was one. */
  lemma UnsubscribeRemoves(c: ClientState, requestId: int, id: nat, newId: nat, ceiling: nat)
    requires ceiling > 0
    ensures var c' := Handle(c, requestId, Unsubscribe(id), newId, ceiling);
            && (forall s :: s in c'.subs <==> s in c.subs && s.id != id) && IsSubsequence(c'.subs, c.subs)
            && c'.enqueued == c.enqueued + [Reply(requestId, Removed(exists s :: s in c.subs && s.id == id))]
  {
    RemainingSubs(c.subs, id);
    HasSubIs(c.subs, id);
  }

  lemma HandleKeepsIds(c: ClientState, requestId: int, r: Request, next: nat, ceiling: nat)
    requires ceiling > 0 && IdsBelow(c, next)
    ensures IdsBelow(Handle(c, requestId, r, next, ceiling), next + 1)
  {
    hide WithoutSub, Addresses, HasSub;
    if r.Unsubscribe? {
      RemainingDistinct(c.subs, r.id);
      RemainingSubs(c.subs, r.id);
      var rest := WithoutSub(c.subs, r.id);
      forall k | 0 <= k < |rest| ensures rest[k].id < next {
        assert rest[k] in rest;
        var l :| 0 <= l < |c.subs| && c.subs[l] == rest[k];
      }
    }
  }

  lemma StepKeepsFresh(s: State, step: Step, s': State)
    requires s.ceiling > 0 && IdsFresh(s) && Apply(s, step) == Some(s')
    ensures IdsFresh(s')
  {
    hide FanOver, AllEvictions, Handle, IdsBelow;
    match step
    case OnMessage(i, id, r) =>
      IdsGrow(s);
      HandleKeepsIds(s.members[i].c, id, r, s.nextSub, s.ceiling);
    case Replay =>
      var a := s.script[s.played];
      forall i | 0 <= i < |s'.members| ensures IdsBelow(s'.members[i].c, s.nextSub) {
        assert s'.members[i] == FanMember(s.members[i], a, s.ceiling);
        SubsBelow(s.members[i].c, s.nextSub);
        FanKeepsIds(s.members[i].c, s.members[i].c.subs, a, s.ceiling, s.nextSub);
      }
    case Connect => NewClientIds(s.nextSub);
    case WriterTakes(i) => QueueChangeKeepsIds(s.members[i].c, Take(s.members[i].c), s.nextSub);
    case WriterSent(i) => QueueChangeKeepsIds(s.members[i].c, Sent(s.members[i].c), s.nextSub);
    case Disconnect(i) =>
  }

  lemma IdsGrow(s: State)
    requires IdsFresh(s)
    ensures forall i :: 0 <= i < |s.members| ==> IdsBelow(s.members[i].c, s.nextSub + 1)
  {
    forall i | 0 <= i < |s.members| ensures IdsBelow(s.members[i].c, s.nextSub + 1) {
      assert IdsBelow(s.members[i].c, s.nextSub);
    }
  }

  lemma SubsBelow(c: ClientState, next: nat)
    requires IdsBelow(c, next)
    ensures forall k :: 0 <= k < |c.subs| ==> c.subs[k].id < next
  {
  }

  lemma NewClientIds(next: nat)
    ensures IdsBelow(NEW_CLIENT, next)
  {
  }

  lemma QueueChangeKeepsIds(c: ClientState, c': ClientState, next: nat)
    requires IdsBelow(c, next) && c'.subs == c.subs && c'.enqueued == c.enqueued
    ensures IdsBelow(c', next)
  {
  }

  lemma {:induction false} RunKeepsFresh(s0: State, steps: seq<Step>, s: State)
    requires s0.ceiling > 0 && IdsFresh(s0) && Run(s0, steps) == Some(s)
    ensures IdsFresh(s)
  {
    hide IdsFresh, Apply;
    if steps != [] {
      var before := Run(s0, steps[..|steps| - 1]).value;
      RunKeepsFresh(s0, steps[..|steps| - 1], before);
      StepKeepsFresh(before, steps[|steps| - 1], s);
    }
  }

  // Serving.

  /** Fanning out an action serves an id exactly if a listed subscription of that id matches. */
  ghost predicate Wants(subs: seq<Subscription>, a: Action, id: nat) {
    exists s :: s in subs && s.id == id && Matches(s, a)
  }

  /** Ids are distinct, so a subscription that matches is the only one of its id. */
  lemma WantsLast(front: seq<Subscription>, last: Subscription, a: Action, id: nat)
    requires DistinctIds(front + [last])
    ensures Wants(front + [last], a, id) <==> if last.id == id then Matches(last, a) else Wants(front, a, id)
    ensures last.id == id ==> !Wants(front, a, id)
  {
    hide Matches;
    var subs := front + [last];
    forall s | s in front ensures s.id != last.id {
      var k :| 0 <= k < |front| && front[k] == s;
      assert subs[k].id != subs[|front|].id;
    }
  }

  lemma NobodyWants(a: Action, id: nat)
    ensures !Wants([], a, id)
  {
    hide Matches;
  }

  lemma {:induction false} FanServes(c: ClientState, subs: seq<Subscription>, a: Action, ceiling: nat, id: nat)
    requires ceiling > 0 && DistinctIds(subs)
    ensures Served(FanOver(c, subs, a, ceiling).enqueued, id)
         == Served(c.enqueued, id) + if Wants(subs, a, id) then [a] else []
  {
    hide Matches, Served, Wants;
    assert Served(c.enqueued, id) + [] == Served(c.enqueued, id);
    if subs == [] {
      NobodyWants(a, id);
    } else {
      var front, last := subs[..|subs| - 1], subs[|subs| - 1];
      var before := FanOver(c, front, a, ceiling);
      assert subs == front + [last];
      FanServes(c, front, a, ceiling, id);
      ServedPush(before.enqueued, Notice(last.id, a), id);
      WantsLast(front, last, a, id);
    }
  }

  /** Client `i` holds the subscription and has been served exactly what was wanted since `from`. */
  ghost predicate Serving(s: State, i: nat, id: nat, kind: Kind, filter: Filter, from: nat) {
    && Live(s, i) && from <= s.played <= |s.script| && id < s.nextSub
    && SubscriptionOf(id, kind, filter) in s.members[i].c.subs
    && Served(s.members[i].c.enqueued, id) == WantedOf(kind, filter, s.script[from..s.played])
  }

  predicate KeepsSubscription(step: Step, i: nat, id: nat) {
    && !(step.Disconnect? && step.client == i)
    && !(step.OnMessage? && step.client == i && step.request == Unsubscribe(id))
  }

  lemma OnlyOneOfId(subs: seq<Subscription>, s: Subscription, t: Subscription)
    requires DistinctIds(subs) && s in subs && t in subs && s.id == t.id
    ensures s == t
  {
    var j :| 0 <= j < |subs| && subs[j] == s;
    var k :| 0 <= k < |subs| && subs[k] == t;
    assert j < k || k < j || j == k;
  }

  lemma ReplayServes(s: State, s': State, i: nat, id: nat, kind: Kind, filter: Filter, from: nat)
    requires s.ceiling > 0 && IdsFresh(s) && Serving(s, i, id, kind, filter, from) && Apply(s, Step.Replay) == Some(s')
    ensures Serving(s', i, id, kind, filter, from)
  {
    hide Matches, Wanted, Served, AllEvictions;
    var a, c, sub := s.script[s.played], s.members[i].c, SubscriptionOf(id, kind, filter);
    assert s'.members[i] == FanMember(s.members[i], a, s.ceiling);
    assert IdsBelow(c, s.nextSub);
    FanOverKeepsSubs(c, c.subs, a, s.ceiling);
    FanServes(c, c.subs, a, s.ceiling, id);
    MatchesWanted(id, kind, filter, a);
    forall t | t in c.subs && t.id == id ensures t == sub {
      OnlyOneOfId(c.subs, t, sub);
    }
    WantedPush(kind, filter, s.script, from, s.played);
  }

  lemma WantedPush(kind: Kind, filter: Filter, script: seq<Action>, from: nat, to: nat)
    requires from <= to < |script|
    ensures WantedOf(kind, filter, script[from..to + 1])
         == WantedOf(kind, filter, script[from..to]) + if Wanted(kind, filter, script[to]) then [script[to]] else []
  {
    assert script[from..to + 1][..to - from] == script[from..to];
  }

  lemma MessageServes(s: State, step: Step, s': State, i: nat, id: nat, kind: Kind, filter: Filter, from: nat)
    requires s.ceiling > 0 && Serving(s, i, id, kind, filter, from) && Apply(s, step) == Some(s')
    requires step.OnMessage? && KeepsSubscription(step, i, id)
    ensures Serving(s', i, id, kind, filter, from)
  {
    hide Served, WantedOf, Addresses, WithoutSub, HasSub;
    if step.client == i {
      var c := s.members[i].c;
      var c' := Handle(c, step.requestId, step.request, s.nextSub, s.ceiling);
      HandleServes(c, step.requestId, step.request, s.nextSub, s.ceiling, id);
      if step.request.Unsubscribe? {
        RemainingSubs(c.subs, step.request.id);
      }
    }
  }

  lemma HandleServes(c: ClientState, requestId: int, r: Request, newId: nat, ceiling: nat, id: nat)
    requires ceiling > 0
    ensures Served(Handle(c, requestId, r, newId, ceiling).enqueued, id) == Served(c.enqueued, id)
  {
    hide Served, Addresses, WithoutSub, HasSub;
    var c' := Handle(c, requestId, r, newId, ceiling);
    var reply := c'.enqueued[|c.enqueued|];
    assert c'.enqueued == c.enqueued + [reply] && reply.Reply?;
    ServedPush(c.enqueued, reply, id);
    assert Served(c.enqueued, id) + [] == Served(c.enqueued, id);
  }

  lemma StepServes(s: State, step: Step, s': State, i: nat, id: nat, kind: Kind, filter: Filter, from: nat)
    requires s.ceiling > 0 && IdsFresh(s) && Serving(s, i, id, kind, filter, from) && Apply(s, step) == Some(s')
    requires KeepsSubscription(step, i, id)
    ensures Serving(s', i, id, kind, filter, from)
  {
    hide Served, WantedOf, SubscriptionOf, Handle, FanMembers, AllEvictions, IdsFresh;
    if step.Replay? {
      ReplayServes(s, s', i, id, kind, filter, from);
    } else if step.OnMessage? {
      MessageServes(s, step, s', i, id, kind, filter, from);
    }
  }

  lemma {:induction false} RunServes(s0: State, steps: seq<Step>, s: State, i: nat, id: nat, kind: Kind, filter: Filter,
                                     from: nat)
    requires s0.ceiling > 0 && IdsFresh(s0) && Serving(s0, i, id, kind, filter, from) && Run(s0, steps) == Some(s)
    requires forall k :: 0 <= k < |steps| ==> KeepsSubscription(steps[k], i, id)
    ensures Serving(s, i, id, kind, filter, from)
  {
    hide IdsFresh, Serving, Apply, KeepsSubscription;
    if steps != [] {
      var before := Run(s0, steps[..|steps| - 1]).value;
      RunServes(s0, steps[..|steps| - 1], before, i, id, kind, filter, from);
      RunKeepsFresh(s0, steps[..|steps| - 1], before);
      StepServes(before, steps[|steps| - 1], s, i, id, kind, filter, from);
    }
  }

  lemma {:induction false} NotServedYet(ms: seq<Message>, id: nat)
    requires forall k :: 0 <= k < |ms| && ms[k].Notice? ==> ms[k].sub != id
    ensures Served(ms, id) == []
  {
    if ms != [] {
      NotServedYet(ms[..|ms| - 1], id);
    }
  }

  lemma RequestServes(s0: State, i: nat, requestId: int, kind: Kind, filter: Filter, s1: State)
    requires s0.ceiling > 0 && IdsFresh(s0) && s0.played <= |s0.script|
    requires Apply(s0, OnMessage(i, requestId, Subscribe(kind, filter))) == Some(s1)
    ensures Serving(s1, i, s0.nextSub, kind, filter, s0.played)
  {
    hide Served, Addresses;
    var c := s0.members[i].c;
    assert IdsBelow(c, s0.nextSub);
    NotServedYet(c.enqueued, s0.nextSub);
    HandleServes(c, requestId, Subscribe(kind, filter), s0.nextSub, s0.ceiling, s0.nextSub);
    assert s1.script[s0.played..s1.played] == [];
  }

  /** In every run, from its request on and as long as the client keeps it and stays connected, a subscription
      is enqueued exactly the actions played since that the request asked for, in order: all heads, or the
      logs of the named addresses whatever their case, or all logs if none was named. */
  lemma SubscriptionIsServed(ceiling: nat, script: seq<Action>, before: seq<Step>, s0: State, i: nat, requestId: int,
                             kind: Kind, filter: Filter, s1: State, steps: seq<Step>, s: State)
    requires ceiling > 0 && Run(Start(ceiling, script), before) == Some(s0)
    requires Apply(s0, OnMessage(i, requestId, Subscribe(kind, filter))) == Some(s1) && Run(s1, steps) == Some(s)
    requires forall k :: 0 <= k < |steps| ==> KeepsSubscription(steps[k], i, s0.nextSub)
    ensures i < |s.members| && s0.played <= s.played <= |script|
    ensures Served(s.members[i].c.enqueued, s0.nextSub) == WantedOf(kind, filter, script[s0.played..s.played])
  {
    hide Served, WantedOf, SubscriptionOf, Apply, IdsBelow, ClientInv, NoticeDrops;
    StartFresh(ceiling, script);
    RunKeepsFresh(Start(ceiling, script), before, s0);
    StartInv(ceiling, script);
    RunKeepsInv(Start(ceiling, script), before, s0);
    RequestServes(s0, i, requestId, kind, filter, s1);
    StepKeepsFresh(s0, OnMessage(i, requestId, Subscribe(kind, filter)), s1);
    StepKeepsScript(s0, OnMessage(i, requestId, Subscribe(kind, filter)), s1);
    RunServes(s1, steps, s, i, s0.nextSub, kind, filter, s0.played);
  }

  lemma StartFresh(ceiling: nat, script: seq<Action>)
    ensures IdsFresh(Start(ceiling, script))
  {
  }

  lemma StartInv(ceiling: nat, script: seq<Action>)
    requires ceiling > 0
    ensures ServerRuns.Inv(Start(ceiling, script))
  {
  }

  lemma StepKeepsScript(s: State, step: Step, s': State)
    requires s.ceiling > 0 && Apply(s, step) == Some(s')
    ensures s'.script == s.script && s'.ceiling == s.ceiling
  {
    hide Handle, FanMembers, AllEvictions;
  }

  // After unsubscribing.

  ghost predicate Gone(s: State, i: nat, id: nat, served: seq<Action>) {
    && i < |s.members| && id < s.nextSub && !HasSub(s.members[i].c.subs, id)
    && Served(s.members[i].c.enqueued, id) == served
  }

  lemma StepStaysGone(s: State, step: Step, s': State, i: nat, id: nat, served: seq<Action>)
    requires s.ceiling > 0 && IdsFresh(s) && Gone(s, i, id, served) && Apply(s, step) == Some(s')
    ensures Gone(s', i, id, served)
  {
    hide Served, AllEvictions, Addresses, WithoutSub, FanOver;
    var c := s.members[i].c;
    assert IdsBelow(c, s.nextSub);
    HasSubIs(c.subs, id);
    HasSubIs(s'.members[i].c.subs, id);
    if step.Replay? {
      var a := s.script[s.played];
      assert s'.members[i] == FanMember(s.members[i], a, s.ceiling);
      FanOverKeepsSubs(c, c.subs, a, s.ceiling);
      FanServes(c, c.subs, a, s.ceiling, id);
      assert Served(c.enqueued, id) + [] == Served(c.enqueued, id);
    } else if step.OnMessage? && step.client == i {
      HandleServes(c, step.requestId, step.request, s.nextSub, s.ceiling, id);
      if step.request.Unsubscribe? {
        RemainingSubs(c.subs, step.request.id);
      }
    }
  }

  lemma {:induction false} RunStaysGone(s0: State, steps: seq<Step>, s: State, i: nat, id: nat, served: seq<Action>)
    requires s0.ceiling > 0 && IdsFresh(s0) && Gone(s0, i, id, served) && Run(s0, steps) == Some(s)
    ensures Gone(s, i, id, served)
  {
    hide IdsFresh, Gone, Apply;
    if steps != [] {
      var before := Run(s0, steps[..|steps| - 1]).value;
      RunStaysGone(s0, steps[..|steps| - 1], before, i, id, served);
      RunKeepsFresh(s0, steps[..|steps| - 1], before);
      StepStaysGone(before, steps[|steps| - 1], s, i, id, served);
    }
  }

  /** Once unsubscribed, an id is never served again: ids are not given out twice. */
  lemma UnsubscribedIsSilent(ceiling: nat, script: seq<Action>, before: seq<Step>, s0: State, i: nat, requestId: int,
                             id: nat, s1: State, steps: seq<Step>, s: State)
    requires ceiling > 0 && Run(Start(ceiling, script), before) == Some(s0) && id < s0.nextSub
    requires Apply(s0, OnMessage(i, requestId, Unsubscribe(id))) == Some(s1) && Run(s1, steps) == Some(s)
    ensures i < |s.members| && i < |s0.members|
    ensures Served(s.members[i].c.enqueued, id) == Served(s0.members[i].c.enqueued, id)
  {
    hide Served, IdsBelow, WithoutSub;
    StartFresh(ceiling, script);
    RunKeepsFresh(Start(ceiling, script), before, s0);
    StepKeepsFresh(s0, OnMessage(i, requestId, Unsubscribe(id)), s1);
    var c := s0.members[i].c;
    RemainingSubs(c.subs, id);
    HasSubIs(s1.members[i].c.subs, id);
    HandleServes(c, requestId, Unsubscribe(id), s0.nextSub, s0.ceiling, id);
    RunStaysGone(s1, steps, s, i, id, Served(c.enqueued, id));
  }

  // The replay and the connections.

  /** The replay waits for a first subscription. */
  lemma {:induction false} LazyStart(ceiling: nat, script: seq<Action>, steps: seq<Step>, s: State)
    requires ceiling > 0 && Run(Start(ceiling, script), steps) == Some(s)
    ensures s.started <==> exists k :: 0 <= k < |steps| && steps[k].OnMessage? && steps[k].request.Subscribe?
    ensures !s.started ==> s.played == 0
  {
    hide Handle, FanMembers, AllEvictions;
    if steps != [] {
      var front, last := steps[..|steps| - 1], steps[|steps| - 1];
      LazyStart(ceiling, script, front, Run(Start(ceiling, script), front).value);
      assert forall k :: 0 <= k < |front| ==> front[k] == steps[k];
      if last.OnMessage? && last.request.Subscribe? {
        assert steps[|front|] == last;
      }
    }
  }

  /** A connection that has ended stays as it was: nothing is enqueued to it, taken from it or sent. */
  lemma {:induction false} EndedStays(s0: State, steps: seq<Step>, s: State, i: nat)
    requires s0.ceiling > 0 && i < |s0.members| && !s0.members[i].live && Run(s0, steps) == Some(s)
    ensures i < |s.members| && s.members[i] == s0.members[i]
  {
    hide Handle, FanOver, AllEvictions, Take, Sent;
    if steps != [] {
      EndedStays(s0, steps[..|steps| - 1], Run(s0, steps[..|steps| - 1]).value, i);
    }
  }

  /** Each action of the script is played once, in order, and every client still connected has its part in it
      at once. */
  lemma ReplayPlaysNext(s: State, s': State, i: nat)
    requires s.ceiling > 0 && Apply(s, Step.Replay) == Some(s') && i < |s.members|
    ensures s.played < |s.script| && s'.played == s.played + 1 && s'.script == s.script
    ensures s.members[i].live ==>
              s'.members[i].c == FanOut(s.members[i].c, s.script[s.played], s.ceiling)
  {
    hide AllEvictions, FanOver;
  }
}
