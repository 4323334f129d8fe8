/** What every edge of a snapshot stands for and weighs, and what every node's volume is, told from the
    events alone. */
module GraphWeights {
  import opened Prelude
  import opened Events
  import opened OrderedDict
  import opened GraphTables
  import opened GraphBuilder
  import opened GraphLaws

  /** A pool and a token that met, a pool under its protocol, or two pools that met one token. */
  datatype Origin = Leg(k: Key) | Hub(pool: string) | Pair(token: string, a: string, b: string)

  // What the events say.

  predicate Meet(e: TickEvent, k: Key) {
    TouchesLeg(k, e.pool, e.token0) || TouchesLeg(k, e.pool, e.token1)
  }

  /** The event brings the origin's edge up to date. */
  predicate Refreshes(o: Origin, e: TickEvent) {
    match o
    case Leg(k) => Meet(e, k)
    case Hub(pool) => e.pool == pool && (e.token0 != ZERO_ADDRESS || e.token1 != ZERO_ADDRESS)
    case Pair(token, a, b) => Meet(e, (a, token)) || Meet(e, (b, token))
  }

  /** `t` is the time of the last event that refreshes the origin. */
  ghost predicate LastRefresh(events: seq<TickEvent>, o: Origin, t: real) {
    && (exists i :: 0 <= i < |events| && Refreshes(o, events[i]) && events[i].time == t)
    && forall i :: 0 <= i < |events| && Refreshes(o, events[i]) ==> events[i].time <= t
  }

  ghost predicate LastOfAll(events: seq<TickEvent>, t: real) {
    (exists i :: 0 <= i < |events| && events[i].time == t) && forall i :: 0 <= i < |events| ==> events[i].time <= t
  }

  /** A pool that never met a token counts as just seen. */
  ghost predicate StampedAt(events: seq<TickEvent>, o: Origin, t: real) {
    if exists i :: 0 <= i < |events| && Refreshes(o, events[i]) then LastRefresh(events, o, t) else LastOfAll(events, t)
  }

  function OwnedBy(owner: Key -> bool, pool: string, token: string, amount: real): real {
    if token != ZERO_ADDRESS && owner((pool, token)) then Abs(amount) else 0.0
  }

  /** What flowed on the legs that an owner has, over all events. */
  function OwnedFlow(events: seq<TickEvent>, owner: Key -> bool): real {
    if events == [] then 0.0
    else
      var e := events[|events| - 1];
      OwnedFlow(events[..|events| - 1], owner)
      + OwnedBy(owner, e.pool, e.token0, e.amount0) + OwnedBy(owner, e.pool, e.token1, e.amount1)
  }

  function InPool(pool: string): Key -> bool { (k: Key) => k.0 == pool }

  function OfToken(token: string): Key -> bool { (k: Key) => k.1 == token }

  /** The flow an edge carries: its leg's, the whole pool's, or the smaller of the two legs'. */
  ghost predicate Carries(events: seq<TickEvent>, o: Origin, amount: real) {
    match o
    case Leg(k) => amount == FlowAt(events, k)
    case Hub(pool) => amount == OwnedFlow(events, InPool(pool))
    case Pair(token, a, b) =>
      var p, q := FlowAt(events, (a, token)), FlowAt(events, (b, token));
      amount <= p && amount <= q && (amount == p || amount == q)
  }

  /** The protocol that the pool's last event names. */
  ghost predicate LastNamed(events: seq<TickEvent>, pool: string, protocol: string) {
    exists i :: 0 <= i < |events| && events[i].pool == pool && events[i].protocol == protocol
                && forall j :: i < j < |events| ==> events[j].pool != pool
  }

  /** Ends and kind of the edge: decentralized exchanges have flows, lenders positions. */
  ghost predicate Stands(events: seq<TickEvent>, o: Origin, src: string, dst: string, kind: EdgeKind) {
    match o
    case Leg(k) =>
      exists p :: LastNamed(events, k.0, p) && src == PoolId(p, k.0) && dst == TokenId(k.1)
                  && kind == if p == "uniswap_v3" then LiquidityFlow else BorrowPosition
    case Hub(pool) =>
      exists p :: LastNamed(events, pool, p) && src == ProtocolId(p) && dst == PoolId(p, pool) && kind == LiquidityFlow
    case Pair(_, a, b) =>
      exists p, q :: LastNamed(events, a, p) && LastNamed(events, b, q)
                     && src == PoolId(p, a) && dst == PoolId(q, b) && kind == SharedCollateral
  }

  // The tables against the events.

  lemma {:induction false} LastTimeIs(events: seq<TickEvent>)
    requires events != []
    ensures LastOfAll(events, LatestTime(events))
  {
    if |events| > 1 {
      var front := events[..|events| - 1];
      LastTimeIs(front);
      var i :| 0 <= i < |front| && front[i].time == LatestTime(front);
      assert events[i] == front[i];
      assert forall k :: 0 <= k < |front| ==> front[k] == events[k];
      assert events[|events| - 1].time <= LatestTime(events);
    }
  }

  lemma {:induction false} LastAtIs(events: seq<TickEvent>, k: Key)
    ensures LastAt(events, k).Some? <==> exists i :: 0 <= i < |events| && Meet(events[i], k)
    ensures LastAt(events, k).Some? ==> LastRefresh(events, Leg(k), LastAt(events, k).value)
  {
    hide TouchesLeg;
    if events != [] {
      var front, e := events[..|events| - 1], events[|events| - 1];
      LastAtIs(front, k);
      assert forall i :: 0 <= i < |front| ==> front[i] == events[i];
      LastAtStep(front, e, k);
      assert events == front + [e];
    }
  }

  lemma LastAtStep(front: seq<TickEvent>, e: TickEvent, k: Key)
    requires LastAt(front, k).Some? <==> exists i :: 0 <= i < |front| && Meet(front[i], k)
    requires LastAt(front, k).Some? ==> LastRefresh(front, Leg(k), LastAt(front, k).value)
    ensures var all := front + [e];
            && (LastAt(all, k).Some? <==> exists i :: 0 <= i < |all| && Meet(all[i], k))
            && (LastAt(all, k).Some? ==> LastRefresh(all, Leg(k), LastAt(all, k).value))
  {
    hide TouchesLeg;
    var all := front + [e];
    assert all[..|front|] == front && all[|front|] == e;
    assert forall i :: 0 <= i < |front| ==> all[i] == front[i];
    if LastAt(front, k).Some? {
      var i :| 0 <= i < |front| && Refreshes(Leg(k), front[i]) && front[i].time == LastAt(front, k).value;
      assert Refreshes(Leg(k), all[i]) && all[i].time == LastAt(front, k).value && Meet(all[i], k);
    }
    if Meet(e, k) {
      assert Refreshes(Leg(k), all[|front|]) && Meet(all[|front|], k);
    }
  }

  lemma NamedStep(front: seq<TickEvent>, e: TickEvent, pool: string, p: string)
    ensures e.pool == pool ==> LastNamed(front + [e], pool, e.protocol)
    ensures e.pool != pool && LastNamed(front, pool, p) ==> LastNamed(front + [e], pool, p)
    ensures (exists i :: 0 <= i < |front + [e]| && (front + [e])[i].pool == pool) <==>
            e.pool == pool || exists i :: 0 <= i < |front| && front[i].pool == pool
  {
    var all := front + [e];
    assert all[|front|] == e && forall i :: 0 <= i < |front| ==> all[i] == front[i];
    if e.pool == pool {
      assert all[|front|].pool == pool && all[|front|].protocol == e.protocol;
    } else if LastNamed(front, pool, p) {
      var i :| 0 <= i < |front| && front[i].pool == pool && front[i].protocol == p
               && forall j :: i < j < |front| ==> front[j].pool != pool;
      assert all[i].pool == pool && all[i].protocol == p;
    }
    if i :| 0 <= i < |front| && front[i].pool == pool {
      assert all[i].pool == pool;
    }
  }

  lemma {:induction false} NamedIs(events: seq<TickEvent>, pool: string)
    ensures pool in TablesOf(events).protocols.vals <==> exists i :: 0 <= i < |events| && events[i].pool == pool
    ensures pool in TablesOf(events).protocols.vals ==> LastNamed(events, pool, ProtocolOf(TablesOf(events), pool))
  {
    hide LastNamed, AddEvent;
    if events != [] {
      var front, e := events[..|events| - 1], events[|events| - 1];
      assert events == front + [e];
      NamedIs(front, pool);
      ProtocolsStep(TablesOf(front), e);
      NamedStep(front, e, pool, ProtocolOf(TablesOf(front), pool));
    }
  }

  lemma ProtocolsStep(t: Tables, e: TickEvent)
    ensures AddEvent(t, e).protocols == t.protocols.Put(e.pool, e.protocol)
  {
  }

  lemma LegKnown(events: seq<TickEvent>, k: Key)
    ensures k in TablesOf(events).volumes.vals <==> exists i :: 0 <= i < |events| && Meet(events[i], k)
    ensures IsMember(TablesOf(events), k.0, k.1) <==> k in TablesOf(events).volumes.vals
    ensures k in TablesOf(events).volumes.vals ==>
              LastRefresh(events, Leg(k), TimeOf(TablesOf(events), k)) && k.0 in TablesOf(events).protocols.vals
    ensures Vol(TablesOf(events), k) == FlowAt(events, k)
  {
    TablesValid(events);
    TablesAt(events, k);
    LastAtIs(events, k);
  }

  function Owned(volumes: Dict<Key, real>, owner: Key -> bool): Key -> real {
    (k: Key) => if owner(k) then volumes.Get(k, 0.0) else 0.0
  }

  lemma PutOwned(d: Dict<Key, real>, key: Key, v: real, owner: Key -> bool)
    requires d.Valid()
    ensures SumOver(d.Put(key, v).keys, Owned(d.Put(key, v), owner))
         == SumOver(d.keys, Owned(d, owner)) + if owner(key) then v - d.Get(key, 0.0) else 0.0
  {
    hide SumOver;
    var d' := d.Put(key, v);
    if key in d.vals {
      assert key in d.keys;
      var i :| 0 <= i < |d.keys| && d.keys[i] == key;
      SumOverChange(d.keys, i, Owned(d, owner), Owned(d', owner));
    } else {
      SumOverPush(d.keys, key, Owned(d', owner));
      SumOverSame(d.keys, Owned(d, owner), Owned(d', owner));
    }
  }

  lemma AddLegOwned(t: Tables, pool: string, token: string, amount: real, time: real, owner: Key -> bool)
    requires t.volumes.Valid()
    ensures var t' := AddLeg(t, pool, token, amount, time);
            && t'.volumes.Valid()
            && SumOver(t'.volumes.keys, Owned(t'.volumes, owner))
               == SumOver(t.volumes.keys, Owned(t.volumes, owner)) + OwnedBy(owner, pool, token, amount)
  {
    hide SumOver, Owned;
    if token != ZERO_ADDRESS {
      var v := t.volumes.Get((pool, token), 0.0) + Abs(amount);
      PutOwned(t.volumes, (pool, token), v, owner);
      t.volumes.PutValid((pool, token), v);
    }
  }

  /** The volume table, summed over any owner's keys, is what flowed on the owner's legs. */
  lemma {:induction false} OwnedIs(events: seq<TickEvent>, owner: Key -> bool)
    ensures var d := TablesOf(events).volumes;
            SumOver(d.keys, Owned(d, owner)) == OwnedFlow(events, owner)
  {
    hide Owned, AddLeg;
    if events == [] {
      NothingOwned(owner);
    } else {
      var front, e := events[..|events| - 1], events[|events| - 1];
      var t := TablesOf(front);
      OwnedIs(front, owner);
      TablesValid(front);
      var t1 := t.(protocols := t.protocols.Put(e.pool, e.protocol));
      AddLegOwned(t1, e.pool, e.token0, e.amount0, e.time, owner);
      AddLegOwned(AddLeg(t1, e.pool, e.token0, e.amount0, e.time), e.pool, e.token1, e.amount1, e.time, owner);
    }
  }

  lemma NothingOwned(owner: Key -> bool)
    ensures var d := TablesOf([]).volumes; SumOver(d.keys, Owned(d, owner)) == 0.0
  {
  }

  // Edges, origin by origin.

  function EdgeFor(t: Tables, latest: real, o: Origin): RawEdge {
    match o
    case Leg(k) => LegEdge(t, k)
    case Hub(pool) => ProtocolEdge(t, pool, latest)
    case Pair(token, a, b) => SharedEdge(t, token, a, b)
  }

  function RowOrigins(token: string, ordered: seq<string>, i: nat, m: nat): seq<Origin>
    requires i < m <= |ordered|
  {
    if m == i + 1 then [] else RowOrigins(token, ordered, i, m - 1) + [Pair(token, ordered[i], ordered[m - 1])]
  }

  function PairOrigins(token: string, ordered: seq<string>, n: nat): seq<Origin>
    requires n <= |ordered|
  {
    if n == 0 then [] else PairOrigins(token, ordered, n - 1) + RowOrigins(token, ordered, n - 1, |ordered|)
  }

  function TokenOrigins(t: Tables, tokens: seq<string>, order: set<string> -> seq<string>): seq<Origin> {
    if tokens == [] then []
    else
      var token := tokens[|tokens| - 1];
      var ordered := order(t.pools.Get(token, {}));
      TokenOrigins(t, tokens[..|tokens| - 1], order)
      + if |t.pools.Get(token, {})| < 2 then [] else PairOrigins(token, ordered, |ordered|)
  }

  function Legs(keys: seq<Key>): seq<Origin> {
    seq(|keys|, i requires 0 <= i < |keys| => Leg(keys[i]))
  }

  function Hubs(pools: seq<string>): seq<Origin> {
    seq(|pools|, i requires 0 <= i < |pools| => Hub(pools[i]))
  }

  function Origins(t: Tables, order: set<string> -> seq<string>): seq<Origin> {
    Legs(t.volumes.keys) + Hubs(t.protocols.keys) + TokenOrigins(t, t.pools.keys, order)
  }

  ghost predicate Matched(t: Tables, latest: real, edges: seq<RawEdge>, os: seq<Origin>) {
    |edges| == |os| && forall i :: 0 <= i < |os| ==> edges[i] == EdgeFor(t, latest, os[i])
  }

  lemma MatchedConcat(t: Tables, latest: real, e: seq<RawEdge>, o: seq<Origin>, f: seq<RawEdge>, q: seq<Origin>)
    requires Matched(t, latest, e, o) && Matched(t, latest, f, q)
    ensures Matched(t, latest, e + f, o + q)
  {
    hide EdgeFor;
  }

  lemma {:induction false} RowMatched(t: Tables, latest: real, token: string, ordered: seq<string>, i: nat, m: nat)
    requires i < m <= |ordered|
    ensures Matched(t, latest, EdgesOfRow(t, token, ordered, i, m), RowOrigins(token, ordered, i, m))
  {
    if m > i + 1 {
      RowMatched(t, latest, token, ordered, i, m - 1);
    }
  }

  lemma {:induction false} PairsMatched(t: Tables, latest: real, token: string, ordered: seq<string>, n: nat)
    requires n <= |ordered|
    ensures Matched(t, latest, EdgesOfPairs(t, token, ordered, n), PairOrigins(token, ordered, n))
  {
    if n > 0 {
      PairsMatched(t, latest, token, ordered, n - 1);
      RowMatched(t, latest, token, ordered, n - 1, |ordered|);
      MatchedConcat(t, latest, EdgesOfPairs(t, token, ordered, n - 1), PairOrigins(token, ordered, n - 1),
                    EdgesOfRow(t, token, ordered, n - 1, |ordered|), RowOrigins(token, ordered, n - 1, |ordered|));
    }
  }

  lemma {:induction false} TokensMatched(t: Tables, latest: real, tokens: seq<string>,
                                         order: set<string> -> seq<string>)
    ensures Matched(t, latest, EdgesOfTokens(t, tokens, order), TokenOrigins(t, tokens, order))
  {
    hide EdgesOfPairs, PairOrigins, EdgeFor;
    if tokens != [] {
      var front, token := tokens[..|tokens| - 1], tokens[|tokens| - 1];
      var pools := t.pools.Get(token, {});
      TokensMatched(t, latest, front, order);
      if |pools| >= 2 {
        PairsMatched(t, latest, token, order(pools), |order(pools)|);
        MatchedConcat(t, latest, EdgesOfTokens(t, front, order), TokenOrigins(t, front, order),
                      EdgesOfPairs(t, token, order(pools), |order(pools)|),
                      PairOrigins(token, order(pools), |order(pools)|));
      }
    }
  }

  lemma RawMatched(t: Tables, latest: real, order: set<string> -> seq<string>)
    ensures Matched(t, latest, RawEdges(t, latest, order), Origins(t, order))
  {
    hide EdgesOfTokens, TokenOrigins;
    var legs, hubs := EdgesOfLegs(t, t.volumes.keys), EdgesOfProtocols(t, t.protocols.keys, latest);
    TokensMatched(t, latest, t.pools.keys, order);
    assert Matched(t, latest, legs, Legs(t.volumes.keys)) && Matched(t, latest, hubs, Hubs(t.protocols.keys));
    MatchedConcat(t, latest, legs, Legs(t.volumes.keys), hubs, Hubs(t.protocols.keys));
    MatchedConcat(t, latest, legs + hubs, Legs(t.volumes.keys) + Hubs(t.protocols.keys),
                  EdgesOfTokens(t, t.pools.keys, order), TokenOrigins(t, t.pools.keys, order));
  }

  // Which origins there are.

  /** The order in which a token's pools are listed. */
  function Listed(t: Tables, order: set<string> -> seq<string>, token: string): seq<string> {
    order(t.pools.Get(token, {}))
  }

  ghost predicate Before(ordered: seq<string>, a: string, b: string) {
    exists i, j :: 0 <= i < j < |ordered| && ordered[i] == a && ordered[j] == b
  }

  lemma {:induction false} RowOriginsAre(token: string, ordered: seq<string>, i: nat, m: nat)
    requires i < m <= |ordered| && NoDup(ordered)
    ensures forall o :: o in RowOrigins(token, ordered, i, m) <==>
              exists j :: i < j < m && o == Pair(token, ordered[i], ordered[j])
    ensures NoDup(RowOrigins(token, ordered, i, m))
  {
    if m > i + 1 {
      RowOriginsAre(token, ordered, i, m - 1);
      var front := RowOrigins(token, ordered, i, m - 1);
      forall k | 0 <= k < |front| ensures front[k] != Pair(token, ordered[i], ordered[m - 1]) {
        assert front[k] in front;
      }
    }
  }

  lemma {:induction false} PairOriginsAre(token: string, ordered: seq<string>, n: nat)
    requires n <= |ordered| && NoDup(ordered)
    ensures forall o :: o in PairOrigins(token, ordered, n) <==>
              exists i, j :: 0 <= i < n && i < j < |ordered| && o == Pair(token, ordered[i], ordered[j])
    ensures NoDup(PairOrigins(token, ordered, n))
  {
    hide RowOrigins;
    if n > 0 {
      PairOriginsAre(token, ordered, n - 1);
      RowOriginsAre(token, ordered, n - 1, |ordered|);
      NoDupConcat(PairOrigins(token, ordered, n - 1), RowOrigins(token, ordered, n - 1, |ordered|));
    }
  }

  lemma NoDupConcat<T>(a: seq<T>, b: seq<T>)
    requires NoDup(a) && NoDup(b) && forall x :: x in a ==> x !in b
    ensures NoDup(a + b)
  {
    forall i, j | 0 <= i < j < |a + b| ensures (a + b)[i] != (a + b)[j] {
      if i < |a| <= j {
        assert a[i] in a && b[j - |a|] in b;
      }
    }
  }

  /** A token's pairs: any two of its pools once, in the order of the listing. */
  ghost predicate IsPairOf(t: Tables, order: set<string> -> seq<string>, o: Origin) {
    o.Pair? && Before(Listed(t, order, o.token), o.a, o.b)
  }

  lemma {:induction false} TokenOriginsAre(t: Tables, tokens: seq<string>, order: set<string> -> seq<string>)
    requires IsOrder(order) && NoDup(tokens)
    ensures forall o :: o in TokenOrigins(t, tokens, order) <==> IsPairOf(t, order, o) && o.token in tokens
    ensures NoDup(TokenOrigins(t, tokens, order))
  {
    hide PairOrigins, NoDup, IsPairOf, IsOrder;
    if tokens == [] {
      NoOrigins();
    } else {
      var front, token := tokens[..|tokens| - 1], tokens[|tokens| - 1];
      assert tokens == front + [token];
      NoDupPrefix(front, token);
      TokenOriginsAre(t, front, order);
      PairsOfToken(t, token, order);
      var more := TokenOrigins(t, tokens, order)[|TokenOrigins(t, front, order)|..];
      NoDupConcat(TokenOrigins(t, front, order), more);
    }
  }

  lemma NoOrigins()
    ensures NoDup<Origin>([])
  {
  }

  lemma NoDupPrefix<T>(front: seq<T>, last: T)
    requires NoDup(front + [last])
    ensures NoDup(front) && last !in front
  {
    var all := front + [last];
    assert forall i :: 0 <= i < |front| ==> all[i] == front[i] && all[i] != all[|front|];
  }

  lemma PairsOfToken(t: Tables, token: string, order: set<string> -> seq<string>)
    requires IsOrder(order)
    ensures var pools := t.pools.Get(token, {});
            var more := if |pools| < 2 then [] else PairOrigins(token, order(pools), |order(pools)|);
            && NoDup(more) && (forall o :: o in more <==> IsPairOf(t, order, o) && o.token == token)
  {
    hide PairOrigins;
    var pools := t.pools.Get(token, {});
    var ordered := order(pools);
    assert Enumerates(order, pools);
    PairOriginsAre(token, ordered, |ordered|);
    if |pools| < 2 {
      FewPools(pools, ordered);
    }
    forall o: Origin | o.Pair? && o.token == token
      ensures Before(ordered, o.a, o.b) <==>
              exists i, j :: 0 <= i < |ordered| && i < j < |ordered| && o == Pair(token, ordered[i], ordered[j])
    {
      if Before(ordered, o.a, o.b) {
        var i, j :| 0 <= i < j < |ordered| && ordered[i] == o.a && ordered[j] == o.b;
        assert o == Pair(token, ordered[i], ordered[j]);
      }
    }
  }

  lemma FewPools(pools: set<string>, ordered: seq<string>)
    requires NoDup(ordered) && |pools| < 2 && forall x :: x in ordered <==> x in pools
    ensures forall a, b :: !Before(ordered, a, b)
  {
    forall a, b ensures !Before(ordered, a, b) {
      if Before(ordered, a, b) {
        TwoMembers(pools, a, b);
      }
    }
  }

  lemma BeforeIsShared(t: Tables, order: set<string> -> seq<string>, token: string, a: string, b: string)
    requires IsOrder(order) && Before(Listed(t, order, token), a, b)
    ensures SharedPair(t, token, a, b) && !Before(Listed(t, order, token), b, a)
  {
    var pools, ordered := t.pools.Get(token, {}), Listed(t, order, token);
    assert Enumerates(order, pools);
    var i, j :| 0 <= i < j < |ordered| && ordered[i] == a && ordered[j] == b;
    assert a in ordered && b in ordered;
  }

  /** Two pools of one token are listed once, in one of the two orders. */
  lemma OneOrder(t: Tables, order: set<string> -> seq<string>, token: string, a: string, b: string)
    requires IsOrder(order) && SharedPair(t, token, a, b)
    ensures Before(Listed(t, order, token), a, b) || Before(Listed(t, order, token), b, a)
  {
    var pools, ordered := t.pools.Get(token, {}), Listed(t, order, token);
    assert Enumerates(order, pools);
    assert a in ordered && b in ordered;
    var i :| 0 <= i < |ordered| && ordered[i] == a;
    var j :| 0 <= j < |ordered| && ordered[j] == b;
    assert i < j || j < i;
  }

  lemma OriginsAre(t: Tables, order: set<string> -> seq<string>)
    requires Valid(t) && IsOrder(order)
    ensures NoDup(Origins(t, order))
    ensures forall k: Key :: Leg(k) in Origins(t, order) <==> k in t.volumes.vals
    ensures forall pool :: Hub(pool) in Origins(t, order) <==> pool in t.protocols.vals
    ensures forall token, a, b :: Pair(token, a, b) in Origins(t, order) <==> Before(Listed(t, order, token), a, b)
  {
    hide IsOrder, TokenOrigins, Before, Listed;
    var legs, hubs, pairs := Legs(t.volumes.keys), Hubs(t.protocols.keys), TokenOrigins(t, t.pools.keys, order);
    KeysOnce(t);
    TokenOriginsAre(t, t.pools.keys, order);
    LegsAre(t.volumes.keys);
    HubsAre(t.protocols.keys);
    NoDupConcat(legs, hubs);
    NoDupConcat(legs + hubs, pairs);
    forall token, a, b ensures Pair(token, a, b) in pairs <==> Before(Listed(t, order, token), a, b) {
      if Before(Listed(t, order, token), a, b) {
        ListedIsKnown(t, order, token, a, b);
      }
      assert IsPairOf(t, order, Pair(token, a, b)) <==> Before(Listed(t, order, token), a, b);
    }
  }

  lemma ListedIsKnown(t: Tables, order: set<string> -> seq<string>, token: string, a: string, b: string)
    requires Valid(t) && IsOrder(order) && Before(Listed(t, order, token), a, b)
    ensures token in t.pools.keys
  {
    assert Enumerates(order, t.pools.Get(token, {}));
    var i, j :| 0 <= i < j < |Listed(t, order, token)| && Listed(t, order, token)[i] == a
                && Listed(t, order, token)[j] == b;
    assert a in Listed(t, order, token);
  }

  lemma KeysOnce(t: Tables)
    requires Valid(t)
    ensures NoDup(t.volumes.keys) && NoDup(t.protocols.keys) && NoDup(t.pools.keys)
    ensures forall k: Key :: k in t.volumes.keys <==> k in t.volumes.vals
    ensures forall pool :: pool in t.protocols.keys <==> pool in t.protocols.vals
  {
  }

  lemma LegsAre(keys: seq<Key>)
    requires NoDup(keys)
    ensures NoDup(Legs(keys)) && forall o :: o in Legs(keys) <==> o.Leg? && o.k in keys
  {
    forall o: Origin ensures o in Legs(keys) <==> o.Leg? && o.k in keys {
      if o.Leg? && o.k in keys {
        var i :| 0 <= i < |keys| && keys[i] == o.k;
        assert Legs(keys)[i] == o;
      }
    }
  }

  lemma HubsAre(pools: seq<string>)
    requires NoDup(pools)
    ensures NoDup(Hubs(pools)) && forall o :: o in Hubs(pools) <==> o.Hub? && o.pool in pools
  {
    forall o: Origin ensures o in Hubs(pools) <==> o.Hub? && o.pool in pools {
      if o.Hub? && o.pool in pools {
        var i :| 0 <= i < |pools| && pools[i] == o.pool;
        assert Hubs(pools)[i] == o;
      }
    }
  }

  // What each raw edge holds.

  lemma LegHolds(events: seq<TickEvent>, latest: real, k: Key)
    requires k in TablesOf(events).volumes.vals
    ensures var e := LegEdge(TablesOf(events), k);
            Carries(events, Leg(k), e.volume) && LastRefresh(events, Leg(k), e.time)
            && Stands(events, Leg(k), e.src, e.dst, e.kind)
  {
    hide TablesOf, Vol, TimeOf, LastRefresh;
    LegKnown(events, k);
    NamedIs(events, k.0);
  }

  lemma {:induction false} PoolTimesAre(t: Tables, keys: seq<Key>, pool: string)
    ensures forall x :: x in PoolTimes(t, keys, pool) <==>
              exists i :: 0 <= i < |keys| && keys[i].0 == pool && TimeOf(t, keys[i]) == x
  {
    hide TimeOf;
    if keys != [] {
      var front, k := keys[..|keys| - 1], keys[|keys| - 1];
      PoolTimesAre(t, front, pool);
      assert keys == front + [k];
      forall x ensures x in PoolTimes(t, keys, pool) <==>
                       exists i :: 0 <= i < |keys| && keys[i].0 == pool && TimeOf(t, keys[i]) == x {
        if x in PoolTimes(t, front, pool) {
          var i :| 0 <= i < |front| && front[i].0 == pool && TimeOf(t, front[i]) == x;
          assert keys[i] == front[i];
        } else if x in PoolTimes(t, keys, pool) {
          assert keys[|front|] == k;
        }
        if i :| 0 <= i < |keys| && keys[i].0 == pool && TimeOf(t, keys[i]) == x {
          if i < |front| {
            assert front[i] == keys[i];
          }
        }
      }
    }
  }

  lemma {:induction false} MaxIsGreatest(times: seq<real>)
    requires times != []
    ensures MaxOfTimes(times) in times && forall x :: x in times ==> x <= MaxOfTimes(times)
  {
    if |times| > 1 {
      var front := times[..|times| - 1];
      MaxIsGreatest(front);
      assert times == front + [times[|times| - 1]];
    }
  }

  /** Every meeting of the pool is one of its legs', and every leg's is the pool's. */
  lemma HubTime(events: seq<TickEvent>, latest: real, pool: string)
    requires events != [] && latest == LatestTime(events)
    ensures var t := TablesOf(events);
            StampedAt(events, Hub(pool), PoolTime(t, t.volumes.keys, pool, latest))
  {
    hide TablesOf, LatestTime, PoolTimes, MaxOfTimes, TimeOf, Vol, FlowAt;
    var t := TablesOf(events);
    var keys := t.volumes.keys;
    var times := PoolTimes(t, keys, pool);
    TablesValid(events);
    KeysOnce(t);
    PoolTimesAre(t, keys, pool);
    LastTimeIs(events);
    forall i | 0 <= i < |events| && Refreshes(Hub(pool), events[i])
      ensures exists x :: x in times && events[i].time <= x
    {
      var x := HubMeets(events, pool, i);
    }
    if times != [] {
      MaxIsGreatest(times);
      var l := LegAtTime(events, pool, MaxOfTimes(times));
    } else {
      assert !(exists i :: 0 <= i < |events| && Refreshes(Hub(pool), events[i]));
    }
  }

  lemma HubMeets(events: seq<TickEvent>, pool: string, i: nat) returns (x: real)
    requires i < |events| && Refreshes(Hub(pool), events[i])
    ensures x in PoolTimes(TablesOf(events), TablesOf(events).volumes.keys, pool) && events[i].time <= x
  {
    hide TablesOf, PoolTimes, TimeOf, Vol, FlowAt;
    var e, t := events[i], TablesOf(events);
    var k := (pool, if e.token0 != ZERO_ADDRESS then e.token0 else e.token1);
    assert Meet(e, k) && Refreshes(Leg(k), e);
    LegKnown(events, k);
    TablesValid(events);
    KeysOnce(t);
    PoolTimesAre(t, t.volumes.keys, pool);
    x := TimeOf(t, k);
    var j :| 0 <= j < |t.volumes.keys| && t.volumes.keys[j] == k;
  }

  lemma LegAtTime(events: seq<TickEvent>, pool: string, x: real) returns (i: nat)
    requires x in PoolTimes(TablesOf(events), TablesOf(events).volumes.keys, pool)
    ensures i < |events| && Refreshes(Hub(pool), events[i]) && events[i].time == x
  {
    hide TablesOf, PoolTimes, TimeOf, Vol, FlowAt;
    var t := TablesOf(events);
    TablesValid(events);
    KeysOnce(t);
    PoolTimesAre(t, t.volumes.keys, pool);
    var j :| 0 <= j < |t.volumes.keys| && t.volumes.keys[j].0 == pool && TimeOf(t, t.volumes.keys[j]) == x;
    var k := t.volumes.keys[j];
    assert k in t.volumes.keys;
    LegKnown(events, k);
    i :| 0 <= i < |events| && Refreshes(Leg(k), events[i]) && events[i].time == x;
  }

  lemma HubHolds(events: seq<TickEvent>, latest: real, pool: string)
    requires events != [] && latest == LatestTime(events) && pool in TablesOf(events).protocols.vals
    ensures var e := ProtocolEdge(TablesOf(events), pool, latest);
            Carries(events, Hub(pool), e.volume) && StampedAt(events, Hub(pool), e.time)
            && Stands(events, Hub(pool), e.src, e.dst, e.kind)
  {
    hide TablesOf, PoolTime, StampedAt, SumOver, LatestTime;
    var t := TablesOf(events);
    HubTime(events, latest, pool);
    NamedIs(events, pool);
    OwnedIs(events, InPool(pool));
    SumOverSame(t.volumes.keys, (k: Key) => if k.0 == pool then Vol(t, k) else 0.0, Owned(t.volumes, InPool(pool)));
  }

  lemma PairTime(events: seq<TickEvent>, token: string, a: string, b: string, x: real, y: real)
    requires LastRefresh(events, Leg((a, token)), x) && LastRefresh(events, Leg((b, token)), y)
    ensures LastRefresh(events, Pair(token, a, b), Later(x, y))
  {
    hide Meet;
    var i :| 0 <= i < |events| && Refreshes(Leg((a, token)), events[i]) && events[i].time == x;
    var j :| 0 <= j < |events| && Refreshes(Leg((b, token)), events[j]) && events[j].time == y;
    assert Refreshes(Pair(token, a, b), events[i]) && Refreshes(Pair(token, a, b), events[j]);
    forall k | 0 <= k < |events| && Refreshes(Pair(token, a, b), events[k]) ensures events[k].time <= Later(x, y) {
      assert Refreshes(Leg((a, token)), events[k]) || Refreshes(Leg((b, token)), events[k]);
    }
  }

  lemma PairHolds(events: seq<TickEvent>, token: string, a: string, b: string)
    requires SharedPair(TablesOf(events), token, a, b)
    ensures var e := SharedEdge(TablesOf(events), token, a, b);
            Carries(events, Pair(token, a, b), e.volume) && LastRefresh(events, Pair(token, a, b), e.time)
            && Stands(events, Pair(token, a, b), e.src, e.dst, e.kind)
  {
    hide TablesOf, Vol, TimeOf, LastRefresh, FlowAt, IsMember;
    var t := TablesOf(events);
    LegKnown(events, (a, token));
    LegKnown(events, (b, token));
    NamedIs(events, a);
    NamedIs(events, b);
    PairTime(events, token, a, b, TimeOf(t, (a, token)), TimeOf(t, (b, token)));
  }

  lemma RefreshedIsStamped(events: seq<TickEvent>, o: Origin, t: real)
    requires LastRefresh(events, o, t)
    ensures StampedAt(events, o, t)
  {
  }

  /** One edge accounted for by the events. */
  ghost predicate AccountedFor(events: seq<TickEvent>, o: Origin, e: RawEdge) {
    Carries(events, o, e.volume) && StampedAt(events, o, e.time) && Stands(events, o, e.src, e.dst, e.kind)
  }

  lemma OriginHolds(events: seq<TickEvent>, order: set<string> -> seq<string>, o: Origin)
    requires events != [] && IsOrder(order) && o in Origins(TablesOf(events), order)
    ensures AccountedFor(events, o, EdgeFor(TablesOf(events), LatestTime(events), o))
  {
    hide TablesOf, Origins, Carries, Stands, StampedAt, LastRefresh, LatestTime, IsOrder, SharedPair, LegEdge,
         ProtocolEdge, SharedEdge;
    var t := TablesOf(events);
    TablesValid(events);
    OriginsAre(t, order);
    match o
    case Leg(k) =>
      LegHolds(events, LatestTime(events), k);
      RefreshedIsStamped(events, o, EdgeFor(t, LatestTime(events), o).time);
    case Hub(pool) =>
      HubHolds(events, LatestTime(events), pool);
    case Pair(token, a, b) =>
      BeforeIsShared(t, order, token, a, b);
      PairHolds(events, token, a, b);
      RefreshedIsStamped(events, o, EdgeFor(t, LatestTime(events), o).time);
  }

  // Weights.

  /** Decentralized flows, lending positions and shared tokens stand as 1 to 0.7 to 0.5. */
  function Tenths(kind: EdgeKind): real {
    match kind
    case LiquidityFlow => 10.0
    case BorrowPosition => 7.0
    case SharedCollateral => 5.0
  }

  /** How two edges of amounts `a` and `b`, stamped `t` and `u`, compare: of equal flows the fresher weighs
      more and an hour halves the weight; at the same time weights are as flows, and as kinds. */
  ghost predicate Compare(e: Edge, a: real, t: real, f: Edge, b: real, u: real) {
    && (e.kind == f.kind && a == b && t <= u ==> e.weight <= f.weight)
    && (e.kind == f.kind && a == b && a > 0.0 && t < u ==> e.weight < f.weight)
    && (e.kind == f.kind && a == b && t + 3600.0 == u ==> e.weight * 2.0 == f.weight)
    && (e.kind == f.kind && t == u ==> e.weight * b == f.weight * a)
    && (a == b && t == u ==> e.weight * Tenths(f.kind) == f.weight * Tenths(e.kind))
  }

  function Raw(amount: real, d: real, kind: EdgeKind): real {
    amount * d * Corr(kind)
  }

  lemma RatioOrder(r: real, s: real, top: real)
    requires top > 0.0
    ensures r <= s ==> r / top <= s / top
    ensures r < s ==> r / top < s / top
  {
  }

  lemma RatioCross(r: real, s: real, top: real, x: real, y: real)
    requires top > 0.0 && r * x == s * y
    ensures (r / top) * x == (s / top) * y
  {
    assert (r / top) * x == (r * x) / top;
    assert (s / top) * y == (s * y) / top;
  }

  lemma RawMonotone(a: real, d: real, f: real, kind: EdgeKind)
    requires a >= 0.0 && d <= f
    ensures Raw(a, d, kind) <= Raw(a, f, kind)
    ensures a > 0.0 && d < f ==> Raw(a, d, kind) < Raw(a, f, kind)
  {
    var g := f - d;
    assert a * f == a * d + a * g;
    if a > 0.0 && d < f {
      SameSignProduct(a, g, a * g);
    }
  }

  lemma RawRatio(a: real, b: real, d: real, kind: EdgeKind)
    ensures Raw(a, d, kind) * b == Raw(b, d, kind) * a
  {
    var c := Corr(kind);
    assert (a * d * c) * b == (b * d * c) * a;
  }

  lemma RawKinds(a: real, d: real, kind: EdgeKind, other: EdgeKind)
    ensures Raw(a, d, kind) * Tenths(other) == Raw(a, d, other) * Tenths(kind)
  {
    var x := a * d;
    assert Raw(a, d, kind) == x * Corr(kind) && Raw(a, d, other) == x * Corr(other);
  }

  lemma RawHalves(a: real, d: real, f: real, kind: EdgeKind)
    requires d == f * 0.5
    ensures Raw(a, d, kind) * 2.0 == Raw(a, f, kind) * 1.0
  {
    assert a * (f * 0.5) == (a * f) * 0.5;
  }

  lemma FresherWeighsMore(e: Edge, f: Edge, a: real, t: real, u: real, decay: real -> real, latest: real, top: real)
    requires IsDecay(decay) && a >= 0.0 && top > 0.0 && e.kind == f.kind
    requires e.weight == Raw(a, decay(latest - t), e.kind) / top
    requires f.weight == Raw(a, decay(latest - u), e.kind) / top
    ensures t <= u ==> e.weight <= f.weight
    ensures a > 0.0 && t < u ==> e.weight < f.weight
    ensures t + 3600.0 == u ==> e.weight * 2.0 == f.weight
  {
    hide Raw, Corr;
    var d, g := decay(latest - t), decay(latest - u);
    var r, s := Raw(a, d, e.kind), Raw(a, g, e.kind);
    assert Falls(decay, latest - u, latest - t);
    if t <= u {
      RawMonotone(a, d, g, e.kind);
      RatioOrder(r, s, top);
    }
    if t + 3600.0 == u {
      assert Multiplies(decay, latest - u, HALF_LIFE);
      RawHalves(a, d, g, e.kind);
      RatioCross(r, s, top, 2.0, 1.0);
    }
  }

  lemma WeightsAtOneTime(e: Edge, a: real, f: Edge, b: real, d: real, top: real)
    requires top > 0.0 && e.weight == Raw(a, d, e.kind) / top && f.weight == Raw(b, d, f.kind) / top
    ensures e.kind == f.kind ==> e.weight * b == f.weight * a
    ensures a == b ==> e.weight * Tenths(f.kind) == f.weight * Tenths(e.kind)
  {
    hide Raw, Corr, Tenths;
    var r, s := Raw(a, d, e.kind), Raw(b, d, f.kind);
    if e.kind == f.kind {
      RawRatio(a, b, d, e.kind);
      RatioCross(r, s, top, b, a);
    }
    if a == b {
      RawKinds(a, d, e.kind, f.kind);
      RatioCross(r, s, top, Tenths(f.kind), Tenths(e.kind));
    }
  }

  lemma WeightsCompare(e: Edge, a: real, t: real, f: Edge, b: real, u: real, decay: real -> real, latest: real,
                       top: real)
    requires IsDecay(decay) && a >= 0.0 && b >= 0.0 && top > 0.0
    requires e.weight == Raw(a, decay(latest - t), e.kind) / top
    requires f.weight == Raw(b, decay(latest - u), f.kind) / top
    ensures Compare(e, a, t, f, b, u)
  {
    hide Raw, Tenths, IsDecay;
    if e.kind == f.kind && a == b {
      FresherWeighsMore(e, f, a, t, u, decay, latest, top);
    }
    if t == u {
      WeightsAtOneTime(e, a, f, b, decay(latest - t), top);
    }
  }

  lemma NoWeights(e: Edge, a: real, t: real, f: Edge, b: real, u: real)
    requires a == 0.0 == b && e.weight == 0.0 == f.weight
    ensures Compare(e, a, t, f, b, u)
  {
  }

  // A built snapshot.

  /** The account of a snapshot's edges: what each stands for, carries and was last refreshed at. */
  ghost predicate Account(events: seq<TickEvent>, edges: seq<Edge>, os: seq<Origin>, amounts: seq<real>,
                          stamps: seq<real>)
  {
    && |os| == |amounts| == |stamps| == |edges|
    && forall i :: 0 <= i < |edges| ==>
         Stands(events, os[i], edges[i].src, edges[i].dst, edges[i].kind)
         && Carries(events, os[i], amounts[i]) && StampedAt(events, os[i], stamps[i])
  }

  /** Nothing is missing and nothing occurs twice. */
  ghost predicate Complete(events: seq<TickEvent>, os: seq<Origin>) {
    && NoDup(os)
    && (forall k: Key :: Leg(k) in os <==> exists i :: 0 <= i < |events| && Meet(events[i], k))
    && (forall pool :: Hub(pool) in os <==> exists i :: 0 <= i < |events| && events[i].pool == pool)
    && (forall token, a, b :: Pair(token, a, b) in os || Pair(token, b, a) in os <==>
          a != b && Leg((a, token)) in os && Leg((b, token)) in os)
    && (forall token, a, b :: !(Pair(token, a, b) in os && Pair(token, b, a) in os))
  }

  lemma OriginsComplete(events: seq<TickEvent>, order: set<string> -> seq<string>)
    requires IsOrder(order)
    ensures Complete(events, Origins(TablesOf(events), order))
  {
    hide TablesOf, Origins, IsOrder, Before, Meet, FlowAt, LastRefresh, Vol, TimeOf, NoDup, Listed, IsMember;
    var t := TablesOf(events);
    TablesValid(events);
    OriginsAre(t, order);
    forall k: Key ensures Leg(k) in Origins(t, order) <==> exists i :: 0 <= i < |events| && Meet(events[i], k) {
      LegKnown(events, k);
    }
    forall pool ensures Hub(pool) in Origins(t, order) <==> exists i :: 0 <= i < |events| && events[i].pool == pool {
      NamedIs(events, pool);
    }
    forall token, a, b
      ensures Pair(token, a, b) in Origins(t, order) || Pair(token, b, a) in Origins(t, order) <==>
              a != b && Leg((a, token)) in Origins(t, order) && Leg((b, token)) in Origins(t, order)
      ensures !(Pair(token, a, b) in Origins(t, order) && Pair(token, b, a) in Origins(t, order))
    {
      PairListed(events, order, token, a, b);
    }
  }

  lemma PairListed(events: seq<TickEvent>, order: set<string> -> seq<string>, token: string, a: string, b: string)
    requires IsOrder(order)
    ensures var t := TablesOf(events);
            && (Before(Listed(t, order, token), a, b) || Before(Listed(t, order, token), b, a) <==>
                a != b && (a, token) in t.volumes.vals && (b, token) in t.volumes.vals)
            && !(Before(Listed(t, order, token), a, b) && Before(Listed(t, order, token), b, a))
  {
    hide TablesOf, IsOrder, Before, FlowAt, LastRefresh, Vol, TimeOf, Listed, IsMember;
    var t := TablesOf(events);
    LegKnown(events, (a, token));
    LegKnown(events, (b, token));
    if SharedPair(t, token, a, b) {
      OneOrder(t, order, token, a, b);
    }
    if Before(Listed(t, order, token), a, b) {
      BeforeIsShared(t, order, token, a, b);
    }
    if Before(Listed(t, order, token), b, a) {
      BeforeIsShared(t, order, token, b, a);
    }
  }

  /** The snapshot's edges over the raw edges. */
  lemma WeighedEdges(events: seq<TickEvent>, order: set<string> -> seq<string>, decay: real -> real, i: nat)
    requires events != [] && i < |RawEdges(TablesOf(events), LatestTime(events), order)|
    ensures var raw, scored := RawEdges(TablesOf(events), LatestTime(events), order), ScoredEdges(events, order, decay);
            var edges, top := SnapshotOf(events, order, decay).edges, MaxRaw(scored);
            && |edges| == |raw| == |scored|
            && edges[i].src == raw[i].src && edges[i].dst == raw[i].dst && edges[i].kind == raw[i].kind
            && scored[i].raw == Raw(raw[i].volume, decay(LatestTime(events) - raw[i].time), raw[i].kind)
            && edges[i].weight == if top > 0.0 then scored[i].raw / top else 0.0
  {
    hide TablesOf, RawEdges, LatestTime, NodesOf, MaxRaw, Corr;
  }

  /** Amounts and times of the raw edges, in order. */
  function Volumes(raw: seq<RawEdge>): seq<real> {
    seq(|raw|, i requires 0 <= i < |raw| => raw[i].volume)
  }

  function Times(raw: seq<RawEdge>): seq<real> {
    seq(|raw|, i requires 0 <= i < |raw| => raw[i].time)
  }

  lemma EdgesAccounted(events: seq<TickEvent>, order: set<string> -> seq<string>, decay: real -> real)
    requires events != [] && IsOrder(order)
    ensures var raw := RawEdges(TablesOf(events), LatestTime(events), order);
            Account(events, SnapshotOf(events, order, decay).edges, Origins(TablesOf(events), order), Volumes(raw),
                    Times(raw))
  {
    hide TablesOf, RawEdges, LatestTime, SnapshotOf, Origins, Carries, StampedAt, Stands, EdgeFor, IsOrder, ScoredEdges;
    var t, latest := TablesOf(events), LatestTime(events);
    var raw, os := RawEdges(t, latest, order), Origins(t, order);
    RawMatched(t, latest, order);
    EdgesAre(events, order, decay);
    forall i | 0 <= i < |raw| ensures AccountedFor(events, os[i], raw[i])
      ensures SnapshotOf(events, order, decay).edges[i].kind == raw[i].kind
    {
      assert os[i] in os;
      OriginHolds(events, order, os[i]);
      WeighedEdges(events, order, decay, i);
    }
  }

  lemma ScoredPair(events: seq<TickEvent>, order: set<string> -> seq<string>, decay: real -> real, i: nat, j: nat)
    requires events != [] && IsOrder(order) && IsDecay(decay)
    requires i < |RawEdges(TablesOf(events), LatestTime(events), order)|
    requires j < |RawEdges(TablesOf(events), LatestTime(events), order)|
    ensures var raw := RawEdges(TablesOf(events), LatestTime(events), order);
            var edges := SnapshotOf(events, order, decay).edges;
            |edges| == |raw| && Compare(edges[i], raw[i].volume, raw[i].time, edges[j], raw[j].volume, raw[j].time)
  {
    hide TablesOf, RawEdges, LatestTime, SnapshotOf, MaxRaw, IsOrder, IsDecay, ScoredEdges, Score, Raw, Compare;
    var latest := LatestTime(events);
    var raw, scored := RawEdges(TablesOf(events), latest, order), ScoredEdges(events, order, decay);
    var edges, top := SnapshotOf(events, order, decay).edges, MaxRaw(scored);
    WeighedEdges(events, order, decay, i);
    WeighedEdges(events, order, decay, j);
    VolumeSign(events, order, decay, i);
    VolumeSign(events, order, decay, j);
    if top > 0.0 {
      WeightsCompare(edges[i], raw[i].volume, raw[i].time, edges[j], raw[j].volume, raw[j].time, decay, latest, top);
    } else {
      NoWeights(edges[i], raw[i].volume, raw[i].time, edges[j], raw[j].volume, raw[j].time);
    }
  }

  lemma VolumeSign(events: seq<TickEvent>, order: set<string> -> seq<string>, decay: real -> real, i: nat)
    requires events != [] && IsOrder(order) && IsDecay(decay)
    requires i < |RawEdges(TablesOf(events), LatestTime(events), order)|
    ensures var raw := RawEdges(TablesOf(events), LatestTime(events), order);
            raw[i].volume >= 0.0 && (MaxRaw(ScoredEdges(events, order, decay)) <= 0.0 ==> raw[i].volume == 0.0)
  {
    hide TablesOf, RawEdges, LatestTime, MaxRaw, IsOrder, IsDecay, Score;
    var t, latest := TablesOf(events), LatestTime(events);
    var raw := RawEdges(t, latest, order);
    TablesValid(events);
    assert raw[i] in raw;
    RawEdgeVolume(t, latest, order, raw[i]);
    ScoreSign(raw[i], latest, decay);
    MaxRawFacts(ScoredEdges(events, order, decay));
    assert ScoredEdges(events, order, decay)[i] == Score(raw[i], latest, decay);
  }

  /** Every edge of a snapshot, and its weight, from the events alone. Each meeting of a pool and a token, each
      pool and each two pools of one token has its one edge, between the named ends and of the right kind. It
      carries the flow between the two over all events, the whole flow of the pool, or the smaller of the two
      flows, and is as old as the last event that refreshed it. Weights compare by flow, age and kind. */
  lemma {:induction false} SnapshotEdgesAre(
      events: seq<TickEvent>, snapshotId: Option<string>, order: set<string> -> seq<string>, decay: real -> real)
    returns (os: seq<Origin>, amounts: seq<real>, stamps: seq<real>)
    requires IsOrder(order) && IsDecay(decay) && Build(events, snapshotId, order, decay).Ok?
    ensures var edges := Build(events, snapshotId, order, decay).value.edges;
            && Account(events, edges, os, amounts, stamps) && Complete(events, os)
            && forall i, j :: 0 <= i < |edges| && 0 <= j < |edges| ==>
                 Compare(edges[i], amounts[i], stamps[i], edges[j], amounts[j], stamps[j])
  {
    hide TablesOf, RawEdges, LatestTime, SnapshotOf, IsOrder, IsDecay, Build, Origins, Account, Complete, Compare;
    BuiltIsSnapshot(events, snapshotId, order, decay);
    var raw := RawEdges(TablesOf(events), LatestTime(events), order);
    os, amounts, stamps := Origins(TablesOf(events), order), Volumes(raw), Times(raw);
    EdgesAccounted(events, order, decay);
    OriginsComplete(events, order);
    EdgesAre(events, order, decay);
    var edges := SnapshotOf(events, order, decay).edges;
    forall i, j | 0 <= i < |edges| && 0 <= j < |edges|
      ensures Compare(edges[i], amounts[i], stamps[i], edges[j], amounts[j], stamps[j])
    {
      ScoredPair(events, order, decay, i, j);
    }
  }

  // Node volumes.

  /** The leg is filed under the node: it is its token's, its pool's and its protocol's. */
  ghost predicate FiledAt(events: seq<TickEvent>, k: Key, id: string) {
    || id == TokenId(k.1)
    || exists p :: LastNamed(events, k.0, p) && (id == PoolId(p, k.0) || id == ProtocolId(p))
  }

  lemma {:induction false} NamedOnce(events: seq<TickEvent>, pool: string, p: string, q: string)
    requires LastNamed(events, pool, p) && LastNamed(events, pool, q)
    ensures p == q
  {
    var i :| 0 <= i < |events| && events[i].pool == pool && events[i].protocol == p
             && forall j :: i < j < |events| ==> events[j].pool != pool;
    var k :| 0 <= k < |events| && events[k].pool == pool && events[k].protocol == q
             && forall j :: k < j < |events| ==> events[j].pool != pool;
    assert i < k || k < i || i == k;
  }

  lemma ShareIsFiled(events: seq<TickEvent>, k: Key, id: string)
    requires k in TablesOf(events).volumes.vals
    ensures LegShare(TablesOf(events), k, id) == if FiledAt(events, k, id) then Vol(TablesOf(events), k) else 0.0
  {
    hide TablesOf, Vol, LastNamed, FlowAt, LastRefresh, TimeOf;
    var t := TablesOf(events);
    var p := ProtocolOf(t, k.0);
    LegKnown(events, k);
    NamedIs(events, k.0);
    IdKinds(p, k.0);
    IdKinds(k.1, k.1);
    if FiledAt(events, k, id) && id != TokenId(k.1) {
      var q :| LastNamed(events, k.0, q) && (id == PoolId(q, k.0) || id == ProtocolId(q));
      NamedOnce(events, k.0, p, q);
    }
  }

  /** A node's volume is what flowed on the legs filed under it. */
  lemma NodeVolumeIs(events: seq<TickEvent>, snapshotId: Option<string>, order: set<string> -> seq<string>,
                     decay: real -> real, n: nat, owner: Key -> bool)
    requires Build(events, snapshotId, order, decay).Ok? && n < |Build(events, snapshotId, order, decay).value.nodes|
    requires forall k :: owner(k) <==> FiledAt(events, k, Build(events, snapshotId, order, decay).value.nodes[n].id)
    ensures Build(events, snapshotId, order, decay).value.nodes[n].volume == OwnedFlow(events, owner)
  {
    hide TablesOf, SnapshotOf, Build, FiledAt, SumOver, LegShare, Vol, OwnedFlow, NodeTypes, Connectivity, ScoredEdges;
    BuiltIsSnapshot(events, snapshotId, order, decay);
    NodesAre(events, order, decay);
    var t, id := TablesOf(events), Build(events, snapshotId, order, decay).value.nodes[n].id;
    TablesValid(events);
    KeysOnce(t);
    forall i | 0 <= i < |t.volumes.keys|
      ensures LegShare(t, t.volumes.keys[i], id) == Owned(t.volumes, owner)(t.volumes.keys[i])
    {
      assert t.volumes.keys[i] in t.volumes.keys;
      ShareIsFiled(events, t.volumes.keys[i], id);
      VolIsEntry(t, t.volumes.keys[i]);
    }
    SumOverSame(t.volumes.keys, k => LegShare(t, k, id), Owned(t.volumes, owner));
    OwnedIs(events, owner);
  }

  lemma VolIsEntry(t: Tables, k: Key)
    ensures Vol(t, k) == t.volumes.Get(k, 0.0)
  {
  }

  // Range and nodes.

  lemma {:induction false} BlocksAre(events: seq<TickEvent>)
    requires events != []
    ensures exists i :: 0 <= i < |events| && events[i].block == FirstBlock(events)
    ensures exists i :: 0 <= i < |events| && events[i].block == LastBlock(events)
    ensures forall i :: 0 <= i < |events| ==> FirstBlock(events) <= events[i].block <= LastBlock(events)
  {
    if |events| > 1 {
      var front := events[..|events| - 1];
      BlocksAre(front);
      assert forall i :: 0 <= i < |front| ==> front[i] == events[i];
      var i :| 0 <= i < |front| && front[i].block == FirstBlock(front);
      var j :| 0 <= j < |front| && front[j].block == LastBlock(front);
      assert events[i].block == FirstBlock(front) && events[j].block == LastBlock(front);
      var last := |events| - 1;
      assert events[last].block <= FirstBlock(front) ==> events[last].block == FirstBlock(events);
      assert events[last].block >= LastBlock(front) ==> events[last].block == LastBlock(events);
    } else {
      assert events[0].block == FirstBlock(events) == LastBlock(events);
    }
  }

  /** The snapshot's range is from the lowest to the highest block of its events. */
  lemma RangeIsExact(events: seq<TickEvent>, snapshotId: Option<string>, order: set<string> -> seq<string>,
                     decay: real -> real)
    requires Build(events, snapshotId, order, decay).Ok?
    ensures var s := Build(events, snapshotId, order, decay).value;
            && (exists i :: 0 <= i < |events| && events[i].block == s.start)
            && (exists i :: 0 <= i < |events| && events[i].block == s.end)
            && forall i :: 0 <= i < |events| ==> s.start <= events[i].block <= s.end
  {
    hide Build, TablesOf, ScoredEdges, NodesOf, EdgesOf;
    BuiltIsSnapshot(events, snapshotId, order, decay);
    BlocksAre(events);
  }

  /** An id that the events call for: a token that was met, a pool, or the protocol a pool was last under. */
  ghost predicate CalledFor(events: seq<TickEvent>, id: string, kind: NodeKind) {
    match kind
    case TokenNode => exists k: Key :: (exists i :: 0 <= i < |events| && Meet(events[i], k)) && id == TokenId(k.1)
    case PoolNode => exists pool, p :: LastNamed(events, pool, p) && id == PoolId(p, pool)
    case ProtocolNode => exists pool, p :: LastNamed(events, pool, p) && id == ProtocolId(p)
  }

  lemma {:induction false} PoolNodesOnly(t: Tables, pools: seq<string>, id: string)
    requires id in PoolNodes(t, pools).vals
    ensures exists pool :: pool in pools && (id == ProtocolId(ProtocolOf(t, pool)) || id == PoolNodeId(t, pool))
  {
    hide ProtocolId, PoolNodeId, ProtocolOf;
    var front, pool := pools[..|pools| - 1], pools[|pools| - 1];
    assert pools == front + [pool];
    PoolNodesStep(t, front, pool);
    if id in PoolNodes(t, front).vals {
      PoolNodesOnly(t, front, id);
    }
  }

  lemma {:induction false} TokenNodesOnly(d: Dict<string, NodeKind>, tokens: seq<string>, id: string)
    requires id in TokenNodes(d, tokens).vals
    ensures id in d.vals || exists token :: token in tokens && id == TokenId(token)
  {
    hide TokenId;
    if tokens != [] {
      var front, token := tokens[..|tokens| - 1], tokens[|tokens| - 1];
      assert tokens == front + [token];
      if id in TokenNodes(d, front).vals {
        TokenNodesOnly(d, front, id);
      }
    }
  }

  lemma TokenWasMet(events: seq<TickEvent>, token: string) returns (k: Key)
    requires token in TablesOf(events).pools.vals
    ensures k.1 == token && exists i :: 0 <= i < |events| && Meet(events[i], k)
  {
    hide TablesOf, FlowAt, LastRefresh, Vol, TimeOf;
    var t := TablesOf(events);
    TablesValid(events);
    var pool :| pool in t.pools.vals[token];
    k := (pool, token);
    LegKnown(events, k);
  }

  lemma NodeCalledFor(events: seq<TickEvent>, id: string)
    requires id in NodeTypes(TablesOf(events)).vals
    ensures CalledFor(events, id, KindByPrefix(id))
  {
    hide TablesOf, PoolNodes, TokenNodes, FlowAt, LastRefresh, LastNamed, Meet;
    var t := TablesOf(events);
    TablesValid(events);
    KeysOnce(t);
    TokenNodesOnly(PoolNodes(t, t.protocols.keys), t.pools.keys, id);
    if token :| token in t.pools.keys && id == TokenId(token) {
      var k := TokenWasMet(events, token);
      IdKinds(token, token);
    } else {
      PoolNodesOnly(t, t.protocols.keys, id);
      var pool :| pool in t.protocols.keys && (id == ProtocolId(ProtocolOf(t, pool)) || id == PoolNodeId(t, pool));
      NamedIs(events, pool);
      IdKinds(ProtocolOf(t, pool), pool);
    }
  }

  lemma CalledForHasNode(events: seq<TickEvent>, id: string, kind: NodeKind)
    requires CalledFor(events, id, kind)
    ensures id in NodeTypes(TablesOf(events)).vals
  {
    hide TablesOf, NodeTypes, FlowAt, LastRefresh, Meet, KindByPrefix, ProtocolOf;
    var t := TablesOf(events);
    TablesValid(events);
    NodeTypesFacts(t);
    match kind
    case TokenNode =>
      var k: Key :| (exists i :: 0 <= i < |events| && Meet(events[i], k)) && id == TokenId(k.1);
      LegKnown(events, k);
    case PoolNode =>
      var pool, p :| LastNamed(events, pool, p) && id == PoolId(p, pool);
      NamedIs(events, pool);
      NamedOnce(events, pool, p, ProtocolOf(t, pool));
    case ProtocolNode =>
      var pool, p :| LastNamed(events, pool, p) && id == ProtocolId(p);
      NamedIs(events, pool);
      NamedOnce(events, pool, p, ProtocolOf(t, pool));
  }

  /** The nodes are exactly the ids that the events call for, each once and under its kind. */
  lemma NodesAreCalledFor(events: seq<TickEvent>, snapshotId: Option<string>, order: set<string> -> seq<string>,
                          decay: real -> real, id: string, kind: NodeKind)
    requires Build(events, snapshotId, order, decay).Ok?
    ensures var nodes := Build(events, snapshotId, order, decay).value.nodes;
            && ((exists n :: 0 <= n < |nodes| && nodes[n].id == id && nodes[n].kind == kind)
                <==> CalledFor(events, id, kind))
            && forall m, n :: 0 <= m < n < |nodes| ==> nodes[m].id != nodes[n].id
  {
    hide Build, TablesOf, ScoredEdges, CalledFor, NodeTypes, NodeVolume, Connectivity, KindByPrefix;
    BuiltIsSnapshot(events, snapshotId, order, decay);
    var t := TablesOf(events);
    var types := NodeTypes(t);
    TablesValid(events);
    NodeTypesFacts(t);
    var nodes := Build(events, snapshotId, order, decay).value.nodes;
    assert forall n :: 0 <= n < |nodes| ==> nodes[n].id == types.keys[n] && types.keys[n] in types.keys;
    if id in types.vals {
      NodeCalledFor(events, id);
      var n :| 0 <= n < |types.keys| && types.keys[n] == id;
      assert nodes[n].id == id;
    }
    if CalledFor(events, id, kind) {
      CalledForHasNode(events, id, kind);
      CalledKind(events, id, kind);
    }
  }

  lemma CalledKind(events: seq<TickEvent>, id: string, kind: NodeKind)
    requires CalledFor(events, id, kind)
    ensures KindByPrefix(id) == kind
  {
    hide LastNamed, Meet;
    match kind
    case TokenNode =>
      var k: Key :| (exists i :: 0 <= i < |events| && Meet(events[i], k)) && id == TokenId(k.1);
      IdKinds(k.1, k.1);
    case PoolNode =>
      var pool, p :| LastNamed(events, pool, p) && id == PoolId(p, pool);
      IdKinds(p, pool);
    case ProtocolNode =>
      var pool, p :| LastNamed(events, pool, p) && id == ProtocolId(p);
      IdKinds(p, p);
  }
}
