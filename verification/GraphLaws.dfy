/** What every graph that `build_graph` produces satisfies, and exactly when it produces one. */
module GraphLaws {
  import opened Prelude
  import opened Events
  import opened HexText
  import opened OrderedDict
  import opened GraphTables
  import opened GraphBuilder

  ghost predicate NoDup<T>(s: seq<T>) {
    forall i, j :: 0 <= i < j < |s| ==> s[i] != s[j]
  }

  /** `sorted` lists each element of a set once. */
  ghost predicate IsOrder(order: set<string> -> seq<string>) {
    forall s :: Enumerates(order, s)
  }

  ghost predicate Enumerates(order: set<string> -> seq<string>, s: set<string>) {
    NoDup(order(s)) && forall x :: x in order(s) <==> x in s
  }

  const HALF_LIFE: real := 3600.0

  /** What is used of the exponential decay: it is positive, turns sums of ages into products, falls, and
      halves in an hour. */
  ghost predicate IsDecay(decay: real -> real) {
    && (forall age :: Positive(decay, age)) && (forall x, y :: Multiplies(decay, x, y))
    && (forall x, y :: Falls(decay, x, y)) && decay(HALF_LIFE) == 0.5
  }

  ghost predicate Positive(decay: real -> real, age: real) { decay(age) > 0.0 }

  ghost predicate Multiplies(decay: real -> real, x: real, y: real) { decay(x + y) == decay(x) * decay(y) }

  ghost predicate Falls(decay: real -> real, x: real, y: real) { x < y ==> decay(y) < decay(x) }

  // Identifiers.

  function KindByPrefix(id: string): NodeKind {
    if |id| > 0 && id[0] == 't' then TokenNode
    else if |id| > 1 && id[1] == 'r' then ProtocolNode
    else PoolNode
  }

  /** The three kinds of identifier never meet. */
  lemma IdKinds(x: string, y: string)
    ensures KindByPrefix(ProtocolId(x)) == ProtocolNode
    ensures KindByPrefix(PoolId(x, y)) == PoolNode
    ensures KindByPrefix(TokenId(x)) == TokenNode
  {
    assert ProtocolId(x)[0] == 'p' && ProtocolId(x)[1] == 'r';
    assert PoolId(x, y)[0] == 'p' && PoolId(x, y)[1] == 'o';
    assert TokenId(x)[0] == 't';
  }

  lemma ColonMarksEnd(p: string, a: string, q: string, b: string)
    requires |p| < |q| && ':' !in q
    ensures p + ":" + a != q + ":" + b
  {
    assert (p + ":" + a)[|p|] == ':';
    assert (q + ":" + b)[|p|] == q[|p|];
    assert q[|p|] in q;
  }

  /** Without a colon in the protocol names, equal pool identifiers mean equal pools. */
  lemma PoolIdInjective(p: string, a: string, q: string, b: string)
    requires PoolId(p, a) == PoolId(q, b) && ':' !in p && ':' !in q
    ensures p == q && a == b
  {
    var s, u := p + ":" + a, q + ":" + b;
    assert PoolId(p, a)[5..] == s && PoolId(q, b)[5..] == u;
    if |p| < |q| {
      ColonMarksEnd(p, a, q, b);
    } else if |q| < |p| {
      ColonMarksEnd(q, b, p, a);
    } else {
      assert s[..|p|] == p && u[..|q|] == q;
      assert s[|p| + 1..] == a && u[|q| + 1..] == b;
    }
  }

  // Where the edges come from.

  ghost predicate SharedPair(t: Tables, token: string, a: string, b: string) {
    IsMember(t, a, token) && IsMember(t, b, token) && a != b
  }

  ghost predicate FromLeg(t: Tables, e: RawEdge) {
    exists k: Key :: k in t.volumes.vals && e == LegEdge(t, k)
  }

  ghost predicate FromProtocol(t: Tables, latest: real, e: RawEdge) {
    exists pool :: pool in t.protocols.vals && e == ProtocolEdge(t, pool, latest)
  }

  ghost predicate FromPair(t: Tables, e: RawEdge) {
    exists token, a, b :: SharedPair(t, token, a, b) && e == SharedEdge(t, token, a, b)
  }

  lemma {:induction false} RowSound(t: Tables, token: string, ordered: seq<string>, i: nat, m: nat)
    requires i < m <= |ordered| && NoDup(ordered)
    requires forall k :: 0 <= k < |ordered| ==> IsMember(t, ordered[k], token)
    ensures forall e :: e in EdgesOfRow(t, token, ordered, i, m) ==> FromPair(t, e)
  {
    if m > i + 1 {
      RowSound(t, token, ordered, i, m - 1);
      assert SharedPair(t, token, ordered[i], ordered[m - 1]);
    }
  }

  lemma {:induction false} PairsSound(t: Tables, token: string, ordered: seq<string>, n: nat)
    requires n <= |ordered| && NoDup(ordered)
    requires forall k :: 0 <= k < |ordered| ==> IsMember(t, ordered[k], token)
    ensures forall e :: e in EdgesOfPairs(t, token, ordered, n) ==> FromPair(t, e)
  {
    if n > 0 {
      PairsSound(t, token, ordered, n - 1);
      RowSound(t, token, ordered, n - 1, |ordered|);
    }
  }

  lemma {:induction false} TokensSound(t: Tables, tokens: seq<string>, order: set<string> -> seq<string>)
    requires IsOrder(order)
    ensures forall e :: e in EdgesOfTokens(t, tokens, order) ==> FromPair(t, e)
  {
    if tokens != [] {
      var token := tokens[|tokens| - 1];
      var pools := t.pools.Get(token, {});
      var ordered := order(pools);
      TokensSound(t, tokens[..|tokens| - 1], order);
      assert Enumerates(order, pools);
      forall k | 0 <= k < |ordered| ensures IsMember(t, ordered[k], token) {
        assert ordered[k] in ordered;
      }
      PairsSound(t, token, ordered, |ordered|);
    }
  }

  lemma LegsSound(t: Tables, e: RawEdge)
    requires Valid(t) && e in EdgesOfLegs(t, t.volumes.keys)
    ensures FromLeg(t, e)
  {
    var legs := EdgesOfLegs(t, t.volumes.keys);
    var i :| 0 <= i < |legs| && legs[i] == e;
    assert t.volumes.keys[i] in t.volumes.keys;
  }

  lemma ProtocolsSound(t: Tables, latest: real, e: RawEdge)
    requires Valid(t) && e in EdgesOfProtocols(t, t.protocols.keys, latest)
    ensures FromProtocol(t, latest, e)
  {
    var protocols := EdgesOfProtocols(t, t.protocols.keys, latest);
    var i :| 0 <= i < |protocols| && protocols[i] == e;
    assert t.protocols.keys[i] in t.protocols.keys;
  }

  /** Every raw edge joins a pool to one of its tokens, a protocol to one of its pools, or two
      different pools that share a token. */
  lemma RawEdgesSound(t: Tables, latest: real, order: set<string> -> seq<string>, e: RawEdge)
    requires Valid(t) && IsOrder(order) && e in RawEdges(t, latest, order)
    ensures FromLeg(t, e) || FromProtocol(t, latest, e) || FromPair(t, e)
  {
    hide FromLeg, FromProtocol, FromPair, EdgesOfTokens, EdgesOfLegs, EdgesOfProtocols, Valid, IsOrder;
    TokensSound(t, t.pools.keys, order);
    if e in EdgesOfLegs(t, t.volumes.keys) {
      LegsSound(t, e);
    } else if e in EdgesOfProtocols(t, t.protocols.keys, latest) {
      ProtocolsSound(t, latest, e);
    }
  }

  lemma {:induction false} RowComplete(t: Tables, token: string, ordered: seq<string>, i: nat, j: nat, m: nat)
    requires i < j < m <= |ordered|
    ensures SharedEdge(t, token, ordered[i], ordered[j]) in EdgesOfRow(t, token, ordered, i, m)
  {
    if j < m - 1 {
      RowComplete(t, token, ordered, i, j, m - 1);
    }
  }

  lemma {:induction false} PairsComplete(t: Tables, token: string, ordered: seq<string>, i: nat, j: nat, n: nat)
    requires i < j < |ordered| && i < n <= |ordered|
    ensures SharedEdge(t, token, ordered[i], ordered[j]) in EdgesOfPairs(t, token, ordered, n)
  {
    hide SharedEdge, EdgesOfRow;
    if i < n - 1 {
      PairsComplete(t, token, ordered, i, j, n - 1);
    } else {
      RowComplete(t, token, ordered, i, j, |ordered|);
    }
  }

  lemma {:induction false} TokensComplete(t: Tables, tokens: seq<string>, order: set<string> -> seq<string>,
                                          token: string, a: string, b: string)
    requires IsOrder(order) && token in tokens && SharedPair(t, token, a, b)
    ensures SharedEdge(t, token, a, b) in EdgesOfTokens(t, tokens, order)
         || SharedEdge(t, token, b, a) in EdgesOfTokens(t, tokens, order)
  {
    var last := tokens[|tokens| - 1];
    if token == last {
      var pools := t.pools.Get(token, {});
      var ordered := order(pools);
      assert Enumerates(order, pools) && {a, b} <= pools;
      var i :| 0 <= i < |ordered| && ordered[i] == a;
      var j :| 0 <= j < |ordered| && ordered[j] == b;
      TwoMembers(pools, a, b);
      if i < j {
        PairsComplete(t, token, ordered, i, j, |ordered|);
      } else {
        PairsComplete(t, token, ordered, j, i, |ordered|);
      }
    } else {
      assert tokens == tokens[..|tokens| - 1] + [last];
      TokensComplete(t, tokens[..|tokens| - 1], order, token, a, b);
    }
  }

  lemma TwoMembers(s: set<string>, a: string, b: string)
    requires a in s && b in s && a != b
    ensures |s| >= 2
  {
    assert |s - {a}| == |s| - 1;
    assert b in s - {a};
  }

  /** And every such pair has its edge. */
  lemma SharedEdgesComplete(t: Tables, latest: real, order: set<string> -> seq<string>, token: string,
                            a: string, b: string)
    requires Valid(t) && IsOrder(order) && SharedPair(t, token, a, b)
    ensures SharedEdge(t, token, a, b) in RawEdges(t, latest, order)
         || SharedEdge(t, token, b, a) in RawEdges(t, latest, order)
  {
    assert token in t.pools.keys;
    TokensComplete(t, t.pools.keys, order, token, a, b);
  }

  // Nodes.

  ghost predicate Filed(d: Dict<string, NodeKind>) {
    d.Valid() && forall id :: id in d.vals ==> d.vals[id] == KindByPrefix(id)
  }

  lemma FilePut(d: Dict<string, NodeKind>, id: string, kind: NodeKind)
    requires Filed(d) && kind == KindByPrefix(id)
    ensures Filed(d.Put(id, kind)) && id in d.Put(id, kind).vals
    ensures forall x :: x in d.vals ==> x in d.Put(id, kind).vals
  {
    hide KindByPrefix;
    d.PutValid(id, kind);
  }

  lemma PoolNodesAt(t: Tables, front: seq<string>, pool: string)
    requires Filed(PoolNodes(t, front))
    ensures Filed(PoolNodes(t, front + [pool]))
    ensures forall x :: x in PoolNodes(t, front).vals ==> x in PoolNodes(t, front + [pool]).vals
    ensures ProtocolId(ProtocolOf(t, pool)) in PoolNodes(t, front + [pool]).vals
    ensures PoolNodeId(t, pool) in PoolNodes(t, front + [pool]).vals
  {
    hide KindByPrefix, ProtocolId, PoolId, ProtocolOf, Filed, PoolNodes;
    var d, id := PoolNodes(t, front), ProtocolId(ProtocolOf(t, pool));
    IdKinds(ProtocolOf(t, pool), pool);
    PoolNodesStep(t, front, pool);
    FilePut(d, id, ProtocolNode);
    FilePut(d.Put(id, ProtocolNode), PoolNodeId(t, pool), PoolNode);
  }

  lemma {:induction false} PoolNodesFacts(t: Tables, pools: seq<string>)
    ensures Filed(PoolNodes(t, pools))
    ensures forall p :: p in pools ==>
      ProtocolId(ProtocolOf(t, p)) in PoolNodes(t, pools).vals && PoolNodeId(t, p) in PoolNodes(t, pools).vals
  {
    if pools == [] {
      NothingFiled(t);
    } else {
      hide KindByPrefix, ProtocolId, PoolNodeId, ProtocolOf, Filed, PoolNodes;
      var front, pool := pools[..|pools| - 1], pools[|pools| - 1];
      assert pools == front + [pool];
      PoolNodesFacts(t, front);
      PoolNodesAt(t, front, pool);
    }
  }

  lemma NothingFiled(t: Tables)
    ensures Filed(PoolNodes(t, []))
  {
  }

  lemma {:induction false} TokenNodesFacts(d: Dict<string, NodeKind>, tokens: seq<string>)
    requires d.Valid() && forall id :: id in d.vals ==> d.vals[id] == KindByPrefix(id)
    ensures TokenNodes(d, tokens).Valid()
    ensures forall id :: id in d.vals ==> id in TokenNodes(d, tokens).vals
    ensures forall x :: x in tokens ==> TokenId(x) in TokenNodes(d, tokens).vals
    ensures forall id :: id in TokenNodes(d, tokens).vals ==> TokenNodes(d, tokens).vals[id] == KindByPrefix(id)
  {
    if tokens != [] {
      var front, token := tokens[..|tokens| - 1], tokens[|tokens| - 1];
      TokenNodesFacts(d, front);
      assert tokens == front + [token];
      IdKinds(token, token);
      TokenNodes(d, front).PutValid(TokenId(token), TokenNode);
    }
  }

  /** Node ids are unique, every id that an edge or a volume refers to is among them, and each is
      filed under its own kind. */
  lemma NodeTypesFacts(t: Tables)
    requires Valid(t)
    ensures NodeTypes(t).Valid()
    ensures forall pool :: pool in t.protocols.vals ==>
      ProtocolId(ProtocolOf(t, pool)) in NodeTypes(t).vals && PoolNodeId(t, pool) in NodeTypes(t).vals
    ensures forall token :: token in t.pools.vals ==> TokenId(token) in NodeTypes(t).vals
    ensures forall id :: id in NodeTypes(t).vals ==> NodeTypes(t).vals[id] == KindByPrefix(id)
  {
    PoolNodesFacts(t, t.protocols.keys);
    TokenNodesFacts(PoolNodes(t, t.protocols.keys), t.pools.keys);
  }

  /** No edge dangles. */
  lemma EdgesHaveNodes(t: Tables, latest: real, order: set<string> -> seq<string>, e: RawEdge)
    requires Valid(t) && IsOrder(order) && e in RawEdges(t, latest, order)
    ensures e.src in NodeTypes(t).vals && e.dst in NodeTypes(t).vals
  {
    RawEdgesSound(t, latest, order, e);
    NodeTypesFacts(t);
    if FromPair(t, e) {
      var token, a, b :| SharedPair(t, token, a, b) && e == SharedEdge(t, token, a, b);
      assert (a, token) in t.volumes.vals && (b, token) in t.volumes.vals;
    }
  }

  /** Two different pools share a token but not an identity: the only way to a self-loop. */
  ghost predicate Collides(t: Tables) {
    exists token, a, b :: SharedPair(t, token, a, b) && PoolNodeId(t, a) == PoolNodeId(t, b)
  }

  lemma SelfLoopIff(t: Tables, latest: real, order: set<string> -> seq<string>)
    requires Valid(t) && IsOrder(order)
    ensures (exists e :: e in RawEdges(t, latest, order) && e.src == e.dst) <==> Collides(t)
  {
    if Collides(t) {
      var token, a, b :| SharedPair(t, token, a, b) && PoolNodeId(t, a) == PoolNodeId(t, b);
      SharedEdgesComplete(t, latest, order, token, a, b);
      var e := if SharedEdge(t, token, a, b) in RawEdges(t, latest, order)
               then SharedEdge(t, token, a, b) else SharedEdge(t, token, b, a);
      assert e in RawEdges(t, latest, order) && e.src == e.dst;
    }
    forall e | e in RawEdges(t, latest, order) && e.src == e.dst ensures Collides(t) {
      RawEdgesSound(t, latest, order, e);
      if FromLeg(t, e) {
        var k: Key :| k in t.volumes.vals && e == LegEdge(t, k);
        IdKinds(ProtocolOf(t, k.0), k.0);
        IdKinds(k.1, k.1);
      } else if FromProtocol(t, latest, e) {
        var pool :| pool in t.protocols.vals && e == ProtocolEdge(t, pool, latest);
        IdKinds(ProtocolOf(t, pool), pool);
      }
    }
  }

  lemma LegMembers(t: Tables, pool: string, token: string, amount: real, time: real)
    ensures var t' := AddLeg(t, pool, token, amount, time);
            && t'.protocols == t.protocols
            && (forall p, x :: IsMember(t, p, x) ==> IsMember(t', p, x))
            && (token != ZERO_ADDRESS ==> IsMember(t', pool, token))
  {
  }

  /** A pool and a token that meet in an event are members of each other from then on. */
  lemma LastEventMembers(front: seq<TickEvent>, e: TickEvent)
    requires e.token0 != ZERO_ADDRESS
    ensures var t := TablesOf(front + [e]);
            IsMember(t, e.pool, e.token0) && ProtocolOf(t, e.pool) == e.protocol
    ensures forall pool, token :: IsMember(TablesOf(front), pool, token) ==>
              IsMember(TablesOf(front + [e]), pool, token)
    ensures forall pool :: pool != e.pool ==>
              ProtocolOf(TablesOf(front + [e]), pool) == ProtocolOf(TablesOf(front), pool)
  {
    hide AddLeg;
    assert (front + [e])[..|front|] == front;
    var t := TablesOf(front);
    var t1 := t.(protocols := t.protocols.Put(e.pool, e.protocol));
    LegMembers(t1, e.pool, e.token0, e.amount0, e.time);
    LegMembers(AddLeg(t1, e.pool, e.token0, e.amount0, e.time), e.pool, e.token1, e.amount1, e.time);
  }

  /** A colon in a protocol name can make two pools one: events of pool "b:c" under "a" and of pool "c" under
      "a:b" that share a token are refused, whatever else they say. */
  lemma CollisionRefuses(first: TickEvent, second: TickEvent, snapshotId: Option<string>,
                         order: set<string> -> seq<string>, decay: real -> real)
    requires IsOrder(order) && IsDecay(decay) && first.token0 == second.token0 != ZERO_ADDRESS
    requires first.protocol == "a" && first.pool == "b:c" && second.protocol == "a:b" && second.pool == "c"
    ensures Collides(TablesOf([first, second])) && Build([first, second], snapshotId, order, decay).Err?
  {
    hide IsMember, ProtocolOf, TablesOf, PoolId, Build, IsOrder, IsDecay, IsUuidV4;
    assert [] + [first] == [first] && [first] + [second] == [first, second];
    LastEventMembers([], first);
    LastEventMembers([first], second);
    var t := TablesOf([first, second]);
    SamePoolId();
    assert SharedPair(t, first.token0, "b:c", "c") && PoolNodeId(t, "b:c") == PoolNodeId(t, "c");
    BuildSucceedsIff([first, second], snapshotId, order, decay);
  }

  lemma SamePoolId()
    ensures PoolId("a", "b:c") == PoolId("a:b", "c")
  {
    assert "pool:" + "a" + ":" + "b:c" == "pool:" + "a:b" + ":" + "c";
  }

  /** With colon-free protocol names nothing collides. */
  lemma ColonFreeIsSafe(t: Tables)
    requires forall pool :: pool in t.protocols.vals ==> ':' !in t.protocols.vals[pool]
    ensures !Collides(t)
  {
    forall token, a, b | SharedPair(t, token, a, b) ensures PoolNodeId(t, a) != PoolNodeId(t, b) {
      if PoolNodeId(t, a) == PoolNodeId(t, b) {
        PoolIdInjective(ProtocolOf(t, a), a, ProtocolOf(t, b), b);
      }
    }
  }

  // Weights.

  lemma ProductNonNegative(x: real, y: real, z: real)
    requires x >= 0.0 && y >= 0.0 && z >= 0.0
    ensures x * y * z >= 0.0
  {
    assert x * y >= 0.0;
  }

  lemma ProductPositive(x: real, y: real, z: real)
    requires x > 0.0 && y > 0.0 && z > 0.0
    ensures x * y * z > 0.0
  {
    assert x * y > 0.0;
  }

  lemma LegEdgeVolume(t: Tables, e: RawEdge)
    requires Valid(t) && FromLeg(t, e)
    ensures e.volume >= 0.0
  {
  }

  lemma VolumesNonNegative(t: Tables, k: Key)
    requires Valid(t)
    ensures Vol(t, k) >= 0.0
  {
  }

  lemma ProtocolVolume(t: Tables, latest: real, e: RawEdge)
    requires Valid(t) && FromProtocol(t, latest, e)
    ensures e.volume >= 0.0
  {
    hide Valid, Vol, SumOver;
    var pool :| pool in t.protocols.vals && e == ProtocolEdge(t, pool, latest);
    var share := (k: Key) => if k.0 == pool then Vol(t, k) else 0.0;
    forall i | 0 <= i < |t.volumes.keys| ensures share(t.volumes.keys[i]) >= 0.0 {
      VolumesNonNegative(t, t.volumes.keys[i]);
    }
    SumOverNonNegative(t.volumes.keys, share);
  }

  lemma PairVolume(t: Tables, e: RawEdge)
    requires Valid(t) && FromPair(t, e)
    ensures e.volume >= 0.0
  {
    hide Valid, Vol, SharedPair;
    var token, a, b :| SharedPair(t, token, a, b) && e == SharedEdge(t, token, a, b);
    VolumesNonNegative(t, (a, token));
    VolumesNonNegative(t, (b, token));
  }

  lemma RawEdgeVolume(t: Tables, latest: real, order: set<string> -> seq<string>, e: RawEdge)
    requires Valid(t) && IsOrder(order) && e in RawEdges(t, latest, order)
    ensures e.volume >= 0.0
  {
    hide *;
    RawEdgesSound(t, latest, order, e);
    if FromLeg(t, e) {
      LegEdgeVolume(t, e);
    } else if FromProtocol(t, latest, e) {
      ProtocolVolume(t, latest, e);
    } else {
      PairVolume(t, e);
    }
  }

  lemma ScoreSign(e: RawEdge, latest: real, decay: real -> real)
    requires IsDecay(decay) && e.volume >= 0.0
    ensures Score(e, latest, decay).raw >= 0.0
    ensures e.volume > 0.0 ==> Score(e, latest, decay).raw > 0.0
  {
    var d, c := decay(latest - e.time), Corr(e.kind);
    assert Positive(decay, latest - e.time);
    assert d > 0.0 && c > 0.0;
    ProductNonNegative(e.volume, d, c);
    if e.volume > 0.0 {
      ProductPositive(e.volume, d, c);
    }
  }

  lemma ScoresNonNegative(t: Tables, latest: real, order: set<string> -> seq<string>, decay: real -> real, i: nat)
    requires Valid(t) && IsOrder(order) && IsDecay(decay) && i < |RawEdges(t, latest, order)|
    ensures Score(RawEdges(t, latest, order)[i], latest, decay).raw >= 0.0
  {
    var e := RawEdges(t, latest, order)[i];
    assert e in RawEdges(t, latest, order);
    RawEdgeVolume(t, latest, order, e);
    ScoreSign(e, latest, decay);
  }

  /** The greatest raw score is at least every score, and is one of them when it is positive. */
  lemma {:induction false} MaxRawFacts(scored: seq<Scored>)
    ensures MaxRaw(scored) >= 0.0
    ensures forall i :: 0 <= i < |scored| ==> scored[i].raw <= MaxRaw(scored)
    ensures MaxRaw(scored) > 0.0 ==> exists i :: 0 <= i < |scored| && scored[i].raw == MaxRaw(scored)
  {
    if scored != [] {
      var front := scored[..|scored| - 1];
      MaxRawFacts(front);
      if MaxRaw(scored) > 0.0 {
        if MaxRaw(scored) == MaxRaw(front) {
          var i :| 0 <= i < |front| && front[i].raw == MaxRaw(front);
          assert scored[i].raw == MaxRaw(scored);
        } else {
          assert scored[|scored| - 1].raw == MaxRaw(scored);
        }
      }
    }
  }

  lemma RatioInBand(x: real, y: real)
    requires 0.0 <= x <= y && y > 0.0
    ensures 0.0 <= x / y <= 1.0 && (x == y ==> x / y == 1.0)
  {
  }

  lemma WeighInBand(s: Scored, maxRaw: real)
    requires 0.0 <= s.raw <= maxRaw
    ensures InBand(Weigh(s, maxRaw).weight)
    ensures maxRaw > 0.0 && s.raw == maxRaw ==> Weigh(s, maxRaw).weight == 1.0
  {
    if maxRaw > 0.0 {
      RatioInBand(s.raw, maxRaw);
    }
  }

  /** Every weight is in the unit interval; some weight is exactly one as soon as any score is positive. */
  lemma WeightsInBand(scored: seq<Scored>)
    requires forall i :: 0 <= i < |scored| ==> scored[i].raw >= 0.0
    ensures forall i :: 0 <= i < |scored| ==> 0.0 <= EdgesOf(scored)[i].weight <= 1.0
    ensures MaxRaw(scored) > 0.0 ==> exists i :: 0 <= i < |scored| && EdgesOf(scored)[i].weight == 1.0
  {
    MaxRawFacts(scored);
    forall i | 0 <= i < |scored|
      ensures InBand(EdgesOf(scored)[i].weight)
      ensures MaxRaw(scored) > 0.0 && scored[i].raw == MaxRaw(scored) ==> EdgesOf(scored)[i].weight == 1.0
    {
      WeighInBand(scored[i], MaxRaw(scored));
    }
  }

  lemma {:induction false} PositiveSummand(keys: seq<Key>, f: Key -> real) returns (i: nat)
    requires SumOver(keys, f) > 0.0
    ensures i < |keys| && f(keys[i]) > 0.0
  {
    var front := keys[..|keys| - 1];
    if f(keys[|keys| - 1]) > 0.0 {
      i := |keys| - 1;
    } else {
      i := PositiveSummand(front, f);
    }
  }

  lemma VolumeMakesScore(events: seq<TickEvent>, order: set<string> -> seq<string>, decay: real -> real)
    requires events != [] && IsDecay(decay) && TotalVolume(events) > 0.0
    ensures MaxRaw(ScoredEdges(events, order, decay)) > 0.0
  {
    var t, latest := TablesOf(events), LatestTime(events);
    VolumesAddUp(events);
    var i := PositiveSummand(t.volumes.keys, ValuesOf(t.volumes));
    var e := LegEdge(t, t.volumes.keys[i]);
    var scored := ScoredEdges(events, order, decay);
    assert EdgesOfLegs(t, t.volumes.keys)[i] == e;
    assert RawEdges(t, latest, order)[i] == e;
    assert scored[i] == Score(e, latest, decay);
    ScoreSign(e, latest, decay);
    MaxRawFacts(scored);
  }

  // Connectivity.

  /** The edge joins these two nodes. */
  predicate Touches(e: Scored, id: string, x: string) {
    (e.src == id && e.dst == x) || (e.dst == id && e.src == x)
  }

  lemma {:induction false} NeighboursAre(edges: seq<Scored>, id: string)
    ensures forall x :: x in Neighbours(edges, id) <==>
      exists i :: 0 <= i < |edges| && Touches(edges[i], id, x)
  {
    if edges != [] {
      var front, e := edges[..|edges| - 1], edges[|edges| - 1];
      NeighboursAre(front, id);
      forall x ensures x in Neighbours(edges, id) <==>
        exists i :: 0 <= i < |edges| && Touches(edges[i], id, x)
      {
        if x in Neighbours(front, id) {
          var i :| 0 <= i < |front| && Touches(front[i], id, x);
          assert edges[i] == front[i];
        } else if x in Neighbours(edges, id) {
          assert edges[|edges| - 1] == e;
        }
        if i :| 0 <= i < |edges| && Touches(edges[i], id, x) {
          if i < |front| {
            assert front[i] == edges[i];
          }
        }
      }
    }
  }

  lemma {:induction false} SizeOfDistinct(s: seq<string>)
    requires NoDup(s)
    ensures |(set x | x in s)| == |s|
  {
    if s != [] {
      var front := s[..|s| - 1];
      SizeOfDistinct(front);
      assert (set x | x in s) == (set x | x in front) + {s[|s| - 1]};
      assert s[|s| - 1] !in front;
    }
  }

  lemma SubsetSize(a: set<string>, b: set<string>)
    requires a <= b
    ensures |a| <= |b|
  {
    assert b == a + (b - a);
  }

  lemma DegreeInBand(degree: nat, most: nat)
    requires degree <= most && most >= 1
    ensures Clamp01(degree as real / most as real) == degree as real / most as real
    ensures InBand(degree as real / most as real)
  {
    RatioInBand(degree as real, most as real);
  }

  lemma NeighboursAmongOthers(edges: seq<Scored>, ids: seq<string>, id: string)
    requires NoDup(ids) && id in ids
    requires forall i :: 0 <= i < |edges| ==> edges[i].src in ids && edges[i].dst in ids && edges[i].src != edges[i].dst
    ensures |Neighbours(edges, id)| <= |ids| - 1 && id !in Neighbours(edges, id)
  {
    var others := (set x | x in ids) - {id};
    NeighboursAre(edges, id);
    assert Neighbours(edges, id) <= others;
    SubsetSize(Neighbours(edges, id), others);
    SizeOfDistinct(ids);
  }

  /** Without self-loops a node has at most `N - 1` neighbours, so its connectivity is exactly the share
      of the other nodes it touches: the clamp never acts. */
  lemma ConnectivityIsExact(edges: seq<Scored>, ids: seq<string>, id: string)
    requires NoDup(ids) && id in ids
    requires forall i :: 0 <= i < |edges| ==> edges[i].src in ids && edges[i].dst in ids && edges[i].src != edges[i].dst
    ensures |Neighbours(edges, id)| <= |ids| - 1
    ensures Connectivity(edges, id, |ids|)
         == |Neighbours(edges, id)| as real / (if |ids| > 1 then |ids| - 1 else 1) as real
    ensures InBand(Connectivity(edges, id, |ids|))
  {
    NeighboursAmongOthers(edges, ids, id);
    DegreeInBand(|Neighbours(edges, id)|, if |ids| > 1 then |ids| - 1 else 1);
  }

  // Conservation of volume.

  /** The identifier under which a key's volume is filed among nodes of one kind. */
  function OwnerId(t: Tables, kind: NodeKind, k: Key): string {
    match kind
    case ProtocolNode => ProtocolId(ProtocolOf(t, k.0))
    case PoolNode => PoolNodeId(t, k.0)
    case TokenNode => TokenId(k.1)
  }

  function Share(t: Tables, kind: NodeKind, k: Key, id: string): real {
    if OwnerId(t, kind, k) == id then Vol(t, k) else 0.0
  }

  /** What is filed under one id. */
  function FiledUnder(t: Tables, keys: seq<Key>, kind: NodeKind, id: string): real {
    if keys == [] then 0.0
    else FiledUnder(t, keys[..|keys| - 1], kind, id) + Share(t, kind, keys[|keys| - 1], id)
  }

  function VolumeOver(t: Tables, keys: seq<Key>): real {
    if keys == [] then 0.0 else VolumeOver(t, keys[..|keys| - 1]) + Vol(t, keys[|keys| - 1])
  }

  /** What is filed under any of the ids, and what one key contributes to them. */
  function FiledOver(t: Tables, ids: seq<string>, keys: seq<Key>, kind: NodeKind): real {
    if ids == [] then 0.0
    else FiledOver(t, ids[..|ids| - 1], keys, kind) + FiledUnder(t, keys, kind, ids[|ids| - 1])
  }

  function SharesOver(t: Tables, ids: seq<string>, kind: NodeKind, k: Key): real {
    if ids == [] then 0.0
    else SharesOver(t, ids[..|ids| - 1], kind, k) + Share(t, kind, k, ids[|ids| - 1])
  }

  lemma {:induction false} FiledOverStep(t: Tables, ids: seq<string>, keys: seq<Key>, kind: NodeKind)
    ensures keys == [] ==> FiledOver(t, ids, keys, kind) == 0.0
    ensures keys != [] ==>
      FiledOver(t, ids, keys, kind)
      == FiledOver(t, ids, keys[..|keys| - 1], kind) + SharesOver(t, ids, kind, keys[|keys| - 1])
  {
    if ids != [] {
      FiledOverStep(t, ids[..|ids| - 1], keys, kind);
    }
  }

  lemma {:induction false} SharedOnce(t: Tables, ids: seq<string>, kind: NodeKind, k: Key)
    requires NoDup(ids)
    ensures SharesOver(t, ids, kind, k) == if OwnerId(t, kind, k) in ids then Vol(t, k) else 0.0
  {
    if ids != [] {
      SharedOnce(t, ids[..|ids| - 1], kind, k);
      assert ids == ids[..|ids| - 1] + [ids[|ids| - 1]];
      assert ids[|ids| - 1] !in ids[..|ids| - 1];
    }
  }

  /** Filing every key's volume under its owner and adding up over all ids loses nothing. */
  lemma {:induction false} FilingConserves(t: Tables, ids: seq<string>, keys: seq<Key>, kind: NodeKind)
    requires NoDup(ids) && forall i :: 0 <= i < |keys| ==> OwnerId(t, kind, keys[i]) in ids
    ensures FiledOver(t, ids, keys, kind) == VolumeOver(t, keys)
  {
    FiledOverStep(t, ids, keys, kind);
    if keys != [] {
      FilingConserves(t, ids, keys[..|keys| - 1], kind);
      SharedOnce(t, ids, kind, keys[|keys| - 1]);
    }
  }

  /** A node of some kind sees, of each leg, only the share filed under that kind. */
  lemma ShareOfKind(t: Tables, k: Key, id: string, kind: NodeKind)
    ensures Share(t, kind, k, id) == if kind == KindByPrefix(id) then LegShare(t, k, id) else 0.0
  {
    IdKinds(ProtocolOf(t, k.0), k.0);
    IdKinds(k.1, k.1);
  }

  lemma {:induction false} VolumeOfKind(t: Tables, keys: seq<Key>, kind: NodeKind, id: string)
    ensures FiledUnder(t, keys, kind, id) == if KindByPrefix(id) == kind then NodeVolume(t, keys, id) else 0.0
  {
    if keys != [] {
      VolumeOfKind(t, keys[..|keys| - 1], kind, id);
      ShareOfKind(t, keys[|keys| - 1], id, kind);
      NodeVolumeStep(t, keys, id);
    }
  }

  lemma NodeVolumeStep(t: Tables, keys: seq<Key>, id: string)
    requires keys != []
    ensures NodeVolume(t, keys, id) == NodeVolume(t, keys[..|keys| - 1], id) + LegShare(t, keys[|keys| - 1], id)
  {
  }

  /** The volume of all nodes of one kind. */
  function KindTotal(nodes: seq<Node>, kind: NodeKind): real {
    if nodes == [] then 0.0
    else
      KindTotal(nodes[..|nodes| - 1], kind)
      + if nodes[|nodes| - 1].kind == kind then nodes[|nodes| - 1].volume else 0.0
  }

  lemma {:induction false} KindTotalOver(t: Tables, nodes: seq<Node>, ids: seq<string>, keys: seq<Key>, kind: NodeKind)
    requires |nodes| == |ids|
    requires forall i :: 0 <= i < |ids| ==>
      FiledUnder(t, keys, kind, ids[i]) == if nodes[i].kind == kind then nodes[i].volume else 0.0
    ensures KindTotal(nodes, kind) == FiledOver(t, ids, keys, kind)
  {
    if nodes != [] {
      KindTotalOver(t, nodes[..|nodes| - 1], ids[..|ids| - 1], keys, kind);
    }
  }

  lemma OwnersAreNodes(t: Tables, kind: NodeKind, k: Key)
    requires Valid(t) && k in t.volumes.vals
    ensures OwnerId(t, kind, k) in NodeTypes(t).keys
  {
    NodeTypesFacts(t);
    assert OwnerId(t, kind, k) in NodeTypes(t).vals;
  }

  lemma {:induction false} VolumeOverSum(t: Tables, keys: seq<Key>)
    ensures VolumeOver(t, keys) == SumOver(keys, ValuesOf(t.volumes))
  {
    if keys != [] {
      VolumeOverSum(t, keys[..|keys| - 1]);
    }
  }

  /** Node volumes over the tokens, over the pools and over the protocols each add up to the total
      `|amount|` on legs with a real token. */
  lemma VolumeIsConserved(events: seq<TickEvent>, scored: seq<Scored>, kind: NodeKind)
    ensures KindTotal(NodesOf(TablesOf(events), NodeTypes(TablesOf(events)), scored), kind) == TotalVolume(events)
  {
    var t := TablesOf(events);
    var types, keys := NodeTypes(t), t.volumes.keys;
    var nodes := NodesOf(t, types, scored);
    TablesValid(events);
    NodeTypesFacts(t);
    forall i | 0 <= i < |types.keys|
      ensures FiledUnder(t, keys, kind, types.keys[i]) == if nodes[i].kind == kind then nodes[i].volume else 0.0
    {
      assert types.keys[i] in types.keys;
      VolumeOfKind(t, keys, kind, types.keys[i]);
    }
    KindTotalOver(t, nodes, types.keys, keys, kind);
    forall i | 0 <= i < |keys| ensures OwnerId(t, kind, keys[i]) in types.keys {
      assert keys[i] in keys;
      OwnersAreNodes(t, kind, keys[i]);
    }
    FilingConserves(t, types.keys, keys, kind);
    VolumeOverSum(t, keys);
    VolumesAddUp(events);
  }

  // When a snapshot is produced.

  lemma {:induction false} EdgeErrorIff(ids: set<string>, edges: seq<Edge>)
    requires forall i :: 0 <= i < |edges| ==> edges[i].src in ids && edges[i].dst in ids
    ensures EdgeError(ids, edges).None? <==> LoopFree(edges)
    ensures EdgeError(ids, edges) in {None, Some(SelfLoop)}
  {
    if edges != [] {
      EdgeErrorIff(ids, edges[1..]);
      assert forall i :: 0 < i < |edges| ==> edges[i] == edges[1..][i - 1];
      assert forall i :: 0 <= i < |edges[1..]| ==> edges[1..][i] == edges[i + 1];
    }
  }

  lemma {:induction false} RangeOrdered(events: seq<TickEvent>)
    requires events != []
    ensures FirstBlock(events) <= LastBlock(events)
  {
    if |events| > 1 {
      RangeOrdered(events[..|events| - 1]);
    }
  }

  lemma ClampInBand(x: real)
    ensures InBand(Clamp01(x))
  {
  }

  /** Everything validation looks at, apart from negative blocks and self-loops. */
  ghost predicate SoundParts(s: Snapshot) {
    && s.nodes != [] && s.start <= s.end
    && (forall i :: 0 <= i < |s.nodes| ==> s.nodes[i].volume >= 0.0 && InBand(s.nodes[i].connectivity))
    && (forall i :: 0 <= i < |s.edges| ==> InBand(s.edges[i].weight))
    && (forall i, j :: 0 <= i < j < |s.nodes| ==> s.nodes[i].id != s.nodes[j].id)
    && (forall i :: 0 <= i < |s.edges| ==> s.edges[i].src in Ids(s.nodes) && s.edges[i].dst in Ids(s.nodes))
  }

  ghost predicate LoopFree(edges: seq<Edge>) {
    forall i :: 0 <= i < |edges| ==> edges[i].src != edges[i].dst
  }

  predicate NodesFit(nodes: seq<Node>) {
    forall i :: 0 <= i < |nodes| ==> IdFits(nodes[i].id)
  }

  lemma EdgesFit(s: Snapshot, i: nat)
    requires SoundParts(s) && NodesFit(s.nodes) && i < |s.edges|
    ensures IdFits(s.edges[i].src) && IdFits(s.edges[i].dst)
  {
    var j :| 0 <= j < |s.nodes| && s.nodes[j].id == s.edges[i].src;
    var k :| 0 <= k < |s.nodes| && s.nodes[k].id == s.edges[i].dst;
    assert IdFits(s.nodes[j].id) && IdFits(s.nodes[k].id);
  }

  lemma ValidateIff(s: Snapshot)
    requires SoundParts(s)
    ensures Validate(s).None? <==> s.start >= 0 && LoopFree(s.edges) && NodesFit(s.nodes)
  {
    hide IdFits;
    EdgeErrorIff(Ids(s.nodes), s.edges);
    if NodesFit(s.nodes) {
      forall i | 0 <= i < |s.edges| ensures IdFits(s.edges[i].src) && IdFits(s.edges[i].dst) {
        EdgesFit(s, i);
      }
    }
  }

  /** An id is a version 4 UUID exactly if it is five groups of hexadecimal digits of these lengths, the third
      beginning with a 4 and the fourth with the variant. */
  lemma UuidGroups(a: string, b: string, c: string, d: string, e: string)
    requires |a| == 8 && |b| == 4 && |c| == 3 && |d| == 4 && |e| == 12
    ensures IsUuidV4(a + "-" + b + "-4" + c + "-" + d + "-" + e) <==>
            AllHex(a) && AllHex(b) && AllHex(c) && AllHex(d) && AllHex(e) && d[0] in "89abAB"
  {
    hide IsHexDigit;
    var s := a + "-" + b + "-4" + c + "-" + d + "-" + e;
    UuidAt(a, b, c, d, e);
    FourIsHex();
    if IsUuidV4(s) {
      assert forall i :: 0 <= i < 8 ==> IsHexDigit(s[i]) && s[i] == a[i];
      assert forall i :: 0 <= i < 4 ==> IsHexDigit(s[9 + i]) && s[9 + i] == b[i];
      assert forall i :: 0 <= i < 3 ==> IsHexDigit(s[15 + i]) && s[15 + i] == c[i];
      assert forall i :: 0 <= i < 4 ==> IsHexDigit(s[19 + i]) && s[19 + i] == d[i];
      assert forall i :: 0 <= i < 12 ==> IsHexDigit(s[24 + i]) && s[24 + i] == e[i];
    }
  }

  lemma FourIsHex()
    ensures IsHexDigit('4')
  {
  }

  lemma UuidAt(a: string, b: string, c: string, d: string, e: string)
    requires |a| == 8 && |b| == 4 && |c| == 3 && |d| == 4 && |e| == 12
    ensures var s := a + "-" + b + "-4" + c + "-" + d + "-" + e;
            && |s| == 36 && s[8] == '-' && s[13] == '-' && s[14] == '4' && s[18] == '-' && s[23] == '-'
            && s[..8] == a && s[9..13] == b && s[15..18] == c && s[19..23] == d && s[24..] == e
            && (forall i :: 0 <= i < 8 ==> s[i] == a[i]) && (forall i :: 9 <= i < 13 ==> s[i] == b[i - 9])
            && (forall i :: 15 <= i < 18 ==> s[i] == c[i - 15]) && (forall i :: 19 <= i < 23 ==> s[i] == d[i - 19])
            && (forall i :: 24 <= i < 36 ==> s[i] == e[i - 24])
  {
  }

  /** The runtime checks, for any snapshot: which of them fails first decides the error. */
  lemma {:induction false} EdgeErrorIs(ids: set<string>, edges: seq<Edge>)
    ensures EdgeError(ids, edges).None? <==>
            forall i :: 0 <= i < |edges| ==>
              edges[i].src in ids && edges[i].dst in ids && edges[i].src != edges[i].dst
    ensures EdgeError(ids, edges) == Some(SelfLoop) ==>
              exists i :: 0 <= i < |edges| && edges[i].src == edges[i].dst && edges[i].src in ids
    ensures EdgeError(ids, edges) == Some(DanglingEdge) ==>
              exists i :: 0 <= i < |edges| && (edges[i].src !in ids || edges[i].dst !in ids)
    ensures EdgeError(ids, edges) in {None, Some(SelfLoop), Some(DanglingEdge)}
  {
    if edges != [] {
      EdgeErrorIs(ids, edges[1..]);
      assert forall i :: 0 < i < |edges| ==> edges[i] == edges[1..][i - 1];
      assert forall i :: 0 <= i < |edges[1..]| ==> edges[1..][i] == edges[i + 1];
    }
  }

  /** The snapshot's nodes, one by one. */
  lemma NodesAre(events: seq<TickEvent>, order: set<string> -> seq<string>, decay: real -> real)
    requires events != []
    ensures var t, s, scored := TablesOf(events), SnapshotOf(events, order, decay), ScoredEdges(events, order, decay);
            var ids := NodeTypes(t).keys;
            && |s.nodes| == |ids|
            && forall i :: 0 <= i < |ids| ==>
                 && s.nodes[i].id == ids[i] && s.nodes[i].volume == NodeVolume(t, t.volumes.keys, ids[i])
                 && s.nodes[i].connectivity == Connectivity(scored, ids[i], |ids|)
  {
    hide TablesOf, ScoredEdges, NodeTypes, NodeVolume, Connectivity;
  }

  lemma ConnectivityInBand(scored: seq<Scored>, id: string, n: nat)
    ensures InBand(Connectivity(scored, id, n))
  {
    ClampInBand(Degree(scored, id) as real / (if n > 1 then n - 1 else 1) as real);
  }

  lemma RangeIs(events: seq<TickEvent>, order: set<string> -> seq<string>, decay: real -> real)
    requires events != []
    ensures SnapshotOf(events, order, decay).start <= SnapshotOf(events, order, decay).end
  {
    RangeOrdered(events);
  }

  lemma SnapshotParts(events: seq<TickEvent>, order: set<string> -> seq<string>, decay: real -> real)
    requires events != [] && IsOrder(order) && IsDecay(decay)
    ensures SoundParts(SnapshotOf(events, order, decay))
  {
    hide TablesOf, ScoredEdges, NodeTypes, NodeVolume, Connectivity, SnapshotOf, RawEdges, IsOrder, IsDecay, InBand;
    var t, scored, s := TablesOf(events), ScoredEdges(events, order, decay), SnapshotOf(events, order, decay);
    TablesValid(events);
    RangeIs(events, order, decay);
    NodeTypesFacts(t);
    NodesAre(events, order, decay);
    SnapshotEdges(events, order, decay);
    SomeNode(events);
    forall i | 0 <= i < |s.nodes| ensures s.nodes[i].volume >= 0.0 && InBand(s.nodes[i].connectivity) {
      NodeVolumeSign(t, s.nodes[i].id);
      ConnectivityInBand(scored, s.nodes[i].id, |s.nodes|);
    }
  }

  lemma SomeNode(events: seq<TickEvent>)
    requires events != []
    ensures NodeTypes(TablesOf(events)).keys != []
  {
    var t := TablesOf(events);
    var pool := events[|events| - 1].pool;
    TablesValid(events);
    NodeTypesFacts(t);
    assert pool in t.protocols.vals;
    assert PoolNodeId(t, pool) in NodeTypes(t).vals;
  }

  lemma NodeVolumeSign(t: Tables, id: string)
    requires Valid(t)
    ensures NodeVolume(t, t.volumes.keys, id) >= 0.0
  {
    forall i | 0 <= i < |t.volumes.keys| ensures LegShare(t, t.volumes.keys[i], id) >= 0.0 {
      assert t.volumes.keys[i] in t.volumes.keys;
    }
    SumOverNonNegative(t.volumes.keys, k => LegShare(t, k, id));
  }

  lemma EdgesAre(events: seq<TickEvent>, order: set<string> -> seq<string>, decay: real -> real)
    requires events != []
    ensures var s, raw := SnapshotOf(events, order, decay), RawEdges(TablesOf(events), LatestTime(events), order);
            var scored := ScoredEdges(events, order, decay);
            && s.edges == EdgesOf(scored) && |s.edges| == |raw| == |scored|
            && forall i :: 0 <= i < |raw| ==> s.edges[i].src == raw[i].src && s.edges[i].dst == raw[i].dst
  {
    hide TablesOf, RawEdges, LatestTime, NodesOf;
  }

  lemma SnapshotEdges(events: seq<TickEvent>, order: set<string> -> seq<string>, decay: real -> real)
    requires events != [] && IsOrder(order) && IsDecay(decay)
    ensures var s, raw := SnapshotOf(events, order, decay), RawEdges(TablesOf(events), LatestTime(events), order);
            && |s.edges| == |raw|
            && (forall i :: 0 <= i < |raw| ==> InBand(s.edges[i].weight)
                                               && s.edges[i].src == raw[i].src && s.edges[i].dst == raw[i].dst
                                               && s.edges[i].src in Ids(s.nodes) && s.edges[i].dst in Ids(s.nodes))
  {
    hide TablesOf, RawEdges, LatestTime, SnapshotOf, EdgesOf, Ids, NodeTypes, IsOrder, IsDecay;
    var t, latest, s := TablesOf(events), LatestTime(events), SnapshotOf(events, order, decay);
    var raw, scored := RawEdges(t, latest, order), ScoredEdges(events, order, decay);
    TablesValid(events);
    NodeTypesFacts(t);
    EdgesAre(events, order, decay);
    forall i | 0 <= i < |scored| ensures scored[i].raw >= 0.0 {
      ScoresNonNegative(t, latest, order, decay, i);
    }
    WeightsInBand(scored);
    forall i | 0 <= i < |raw| ensures raw[i].src in Ids(s.nodes) && raw[i].dst in Ids(s.nodes) {
      assert raw[i] in raw;
      EdgesHaveNodes(t, latest, order, raw[i]);
      IdIsListed(events, order, decay, raw[i].src);
      IdIsListed(events, order, decay, raw[i].dst);
    }
  }

  lemma IdIsListed(events: seq<TickEvent>, order: set<string> -> seq<string>, decay: real -> real, id: string)
    requires events != [] && id in NodeTypes(TablesOf(events)).vals
    ensures id in Ids(SnapshotOf(events, order, decay).nodes)
  {
    var t, s := TablesOf(events), SnapshotOf(events, order, decay);
    TablesValid(events);
    NodeTypesFacts(t);
    assert id in NodeTypes(t).keys;
    var i :| 0 <= i < |NodeTypes(t).keys| && NodeTypes(t).keys[i] == id;
    assert s.nodes[i].id == id;
  }

  /** The names that make up the identifiers leave them within the schema's length. */
  ghost predicate NamesFit(t: Tables) {
    && (forall pool :: pool in t.protocols.vals ==>
          IdFits(ProtocolId(ProtocolOf(t, pool))) && IdFits(PoolNodeId(t, pool)))
    && (forall token :: token in t.pools.vals ==> IdFits(TokenId(token)))
  }

  /** The schema allows 128 characters, prefixes and separators included. */
  lemma NamesFitIs(t: Tables)
    ensures NamesFit(t) <==>
            && (forall pool :: pool in t.protocols.vals ==>
                  |ProtocolOf(t, pool)| <= 119 && |ProtocolOf(t, pool)| + |pool| <= 122)
            && (forall token :: token in t.pools.vals ==> |token| <= 122)
  {
    forall p: string, a: string
      ensures IdFits(ProtocolId(p)) <==> |p| <= 119
      ensures IdFits(PoolId(p, a)) <==> |p| + |a| <= 122
      ensures IdFits(TokenId(a)) <==> |a| <= 122
    {
      assert |ProtocolId(p)| == 9 + |p| && |PoolId(p, a)| == 6 + |p| + |a| && |TokenId(a)| == 6 + |a|;
    }
  }

  ghost predicate KeysFit(d: Dict<string, NodeKind>) {
    forall id :: id in d.vals ==> IdFits(id)
  }

  ghost predicate PoolNamesFit(t: Tables, pools: seq<string>) {
    forall p :: p in pools ==> IdFits(ProtocolId(ProtocolOf(t, p))) && IdFits(PoolNodeId(t, p))
  }

  lemma PoolNamesPush(t: Tables, front: seq<string>, pool: string)
    ensures PoolNamesFit(t, front + [pool]) <==>
            PoolNamesFit(t, front) && IdFits(ProtocolId(ProtocolOf(t, pool))) && IdFits(PoolNodeId(t, pool))
  {
    hide IdFits, ProtocolId, ProtocolOf, PoolNodeId;
    assert (front + [pool])[|front|] == pool;
    assert forall p :: p in front ==> p in front + [pool];
  }

  lemma PoolNodesStep(t: Tables, front: seq<string>, pool: string)
    ensures PoolNodes(t, front + [pool])
         == PoolNodes(t, front).Put(ProtocolId(ProtocolOf(t, pool)), ProtocolNode).Put(PoolNodeId(t, pool), PoolNode)
  {
    hide ProtocolId, ProtocolOf, PoolNodeId;
    assert (front + [pool])[..|front|] == front;
  }

  lemma {:induction false} PoolNodesFitIff(t: Tables, pools: seq<string>)
    ensures KeysFit(PoolNodes(t, pools)) <==> PoolNamesFit(t, pools)
  {
    if pools != [] {
      var front, pool := pools[..|pools| - 1], pools[|pools| - 1];
      assert pools == front + [pool];
      PoolNodesFitIff(t, front);
      PoolNodesFitStep(t, front, pool);
    }
  }

  lemma PoolNodesFitStep(t: Tables, front: seq<string>, pool: string)
    requires KeysFit(PoolNodes(t, front)) <==> PoolNamesFit(t, front)
    ensures KeysFit(PoolNodes(t, front + [pool])) <==> PoolNamesFit(t, front + [pool])
  {
    hide IdFits, KeysFit, ProtocolId, ProtocolOf, PoolNodeId, PoolNodes, PoolNamesFit;
    PoolNodesStep(t, front, pool);
    PoolNamesPush(t, front, pool);
    var d := PoolNodes(t, front);
    PutFits(d, ProtocolId(ProtocolOf(t, pool)), ProtocolNode);
    PutFits(d.Put(ProtocolId(ProtocolOf(t, pool)), ProtocolNode), PoolNodeId(t, pool), PoolNode);
  }

  lemma PutFits(d: Dict<string, NodeKind>, id: string, kind: NodeKind)
    ensures KeysFit(d.Put(id, kind)) <==> KeysFit(d) && IdFits(id)
  {
    assert id in d.Put(id, kind).vals;
    assert forall x :: x in d.vals ==> x in d.Put(id, kind).vals;
  }

  lemma {:induction false} TokenNodesFitIff(d: Dict<string, NodeKind>, tokens: seq<string>)
    ensures KeysFit(TokenNodes(d, tokens)) <==> KeysFit(d) && forall x :: x in tokens ==> IdFits(TokenId(x))
  {
    hide IdFits, KeysFit;
    if tokens != [] {
      var front, token := tokens[..|tokens| - 1], tokens[|tokens| - 1];
      TokenNodesFitIff(d, front);
      assert tokens == front + [token];
      PutFits(TokenNodes(d, front), TokenId(token), TokenNode);
    }
  }

  lemma ListedKeysFit(nodes: seq<Node>, d: Dict<string, NodeKind>)
    requires d.Valid() && |nodes| == |d.keys| && forall i :: 0 <= i < |nodes| ==> nodes[i].id == d.keys[i]
    ensures NodesFit(nodes) <==> KeysFit(d)
  {
    hide IdFits;
    if NodesFit(nodes) {
      forall id | id in d.vals ensures IdFits(id) {
        assert id in d.keys;
        var i :| 0 <= i < |d.keys| && d.keys[i] == id;
        assert IdFits(nodes[i].id);
      }
    }
    if KeysFit(d) {
      forall i | 0 <= i < |nodes| ensures IdFits(nodes[i].id) {
        assert d.keys[i] in d.keys;
      }
    }
  }

  lemma NodeTypesFitIff(t: Tables)
    requires Valid(t)
    ensures KeysFit(NodeTypes(t)) <==> NamesFit(t)
  {
    hide IdFits, KeysFit, TokenNodes, PoolNodes;
    PoolNodesFitIff(t, t.protocols.keys);
    TokenNodesFitIff(PoolNodes(t, t.protocols.keys), t.pools.keys);
  }

  lemma NodesFitIff(events: seq<TickEvent>, order: set<string> -> seq<string>, decay: real -> real)
    requires events != []
    ensures NodesFit(SnapshotOf(events, order, decay).nodes) <==> NamesFit(TablesOf(events))
  {
    hide TablesOf, NodeTypes, SnapshotOf, ScoredEdges, Connectivity, NodeVolume, NodesFit, KeysFit, NamesFit;
    TablesValid(events);
    NodeTypesFacts(TablesOf(events));
    NodeTypesFitIff(TablesOf(events));
    NodesAre(events, order, decay);
    ListedKeysFit(SnapshotOf(events, order, decay).nodes, NodeTypes(TablesOf(events)));
  }

  /** `build_graph` returns a valid snapshot exactly when there are events, no block number is negative,
      no two pools that share a token share an identity, the names fit and so does an id that is given;
      otherwise it raises. */
  lemma BuildSucceedsIff(events: seq<TickEvent>, snapshotId: Option<string>, order: set<string> -> seq<string>,
                         decay: real -> real)
    requires IsOrder(order) && IsDecay(decay)
    ensures Build(events, snapshotId, order, decay).Ok? <==>
            && events != [] && FirstBlock(events) >= 0 && !Collides(TablesOf(events)) && NamesFit(TablesOf(events))
            && (snapshotId.Some? && snapshotId.value != "" ==> IsUuidV4(snapshotId.value))
  {
    hide SoundParts, Validate, LoopFree, Collides, NodesFit, NamesFit, TablesOf, IsOrder, IsDecay, IsUuidV4;
    if events != [] {
      SnapshotParts(events, order, decay);
      ValidateIff(SnapshotOf(events, order, decay));
      SnapshotLoopsIff(events, order, decay);
      NodesFitIff(events, order, decay);
    }
  }

  lemma SnapshotLoopsIff(events: seq<TickEvent>, order: set<string> -> seq<string>, decay: real -> real)
    requires events != [] && IsOrder(order) && IsDecay(decay)
    ensures LoopFree(SnapshotOf(events, order, decay).edges) <==> !Collides(TablesOf(events))
  {
    var t, latest := TablesOf(events), LatestTime(events);
    TablesValid(events);
    SnapshotEdges(events, order, decay);
    SelfLoopIff(t, latest, order);
    LoopsCarryOver(RawEdges(t, latest, order), SnapshotOf(events, order, decay).edges);
  }

  lemma LoopsCarryOver(raw: seq<RawEdge>, edges: seq<Edge>)
    requires |raw| == |edges|
    requires forall i :: 0 <= i < |raw| ==> edges[i].src == raw[i].src && edges[i].dst == raw[i].dst
    ensures LoopFree(edges) <==> !(exists e :: e in raw && e.src == e.dst)
  {
    if e :| e in raw && e.src == e.dst {
      var i :| 0 <= i < |raw| && raw[i] == e;
      assert edges[i].src == edges[i].dst;
    }
    forall i | 0 <= i < |edges| && edges[i].src == edges[i].dst ensures exists e :: e in raw && e.src == e.dst {
      assert raw[i] in raw;
    }
  }

  lemma BuiltIsSnapshot(events: seq<TickEvent>, snapshotId: Option<string>, order: set<string> -> seq<string>,
                        decay: real -> real)
    requires Build(events, snapshotId, order, decay).Ok?
    ensures events != [] && Build(events, snapshotId, order, decay).value == SnapshotOf(events, order, decay)
  {
  }

  lemma KindsConserved(events: seq<TickEvent>, order: set<string> -> seq<string>, decay: real -> real)
    requires events != []
    ensures forall kind :: KindTotal(SnapshotOf(events, order, decay).nodes, kind) == TotalVolume(events)
  {
    hide KindTotal, TotalVolume, TablesOf, ScoredEdges, NodesOf;
    forall kind ensures KindTotal(SnapshotOf(events, order, decay).nodes, kind) == TotalVolume(events) {
      VolumeIsConserved(events, ScoredEdges(events, order, decay), kind);
    }
  }

  /** In a produced snapshot: unique nodes, no dangling edge, no self-loop, weights in the unit interval
      with one exactly 1 when any volume flowed, volumes that add up alike over tokens, pools and
      protocols, and connectivity equal to the share of other nodes touched. */
  lemma SnapshotLaws(events: seq<TickEvent>, snapshotId: Option<string>, order: set<string> -> seq<string>,
                     decay: real -> real)
    requires IsOrder(order) && IsDecay(decay) && Build(events, snapshotId, order, decay).Ok?
    ensures events != []
    ensures var s := Build(events, snapshotId, order, decay).value;
            var scored := ScoredEdges(events, order, decay);
            && (forall i, j :: 0 <= i < j < |s.nodes| ==> s.nodes[i].id != s.nodes[j].id)
            && (forall i :: 0 <= i < |s.edges| ==>
                  s.edges[i].src in Ids(s.nodes) && s.edges[i].dst in Ids(s.nodes)
                  && s.edges[i].src != s.edges[i].dst && 0.0 <= s.edges[i].weight <= 1.0)
            && (TotalVolume(events) > 0.0 ==> exists i :: 0 <= i < |s.edges| && s.edges[i].weight == 1.0)
            && (forall kind :: KindTotal(s.nodes, kind) == TotalVolume(events))
            && (forall i :: 0 <= i < |s.nodes| ==>
                  s.nodes[i].connectivity == |Neighbours(scored, s.nodes[i].id)| as real
                                             / (if |s.nodes| > 1 then |s.nodes| - 1 else 1) as real)
  {
    hide Build, SnapshotOf, TablesOf, ScoredEdges, KindTotal, TotalVolume, Collides, Neighbours, IsOrder, IsDecay;
    BuildSucceedsIff(events, snapshotId, order, decay);
    BuiltIsSnapshot(events, snapshotId, order, decay);
    SnapshotParts(events, order, decay);
    SnapshotLoopsIff(events, order, decay);
    if TotalVolume(events) > 0.0 {
      VolumeMakesScore(events, order, decay);
      TopWeight(events, order, decay);
    }
    KindsConserved(events, order, decay);
    ConnectivityLaw(events, order, decay);
  }

  lemma TopWeight(events: seq<TickEvent>, order: set<string> -> seq<string>, decay: real -> real)
    requires IsOrder(order) && IsDecay(decay) && events != [] && MaxRaw(ScoredEdges(events, order, decay)) > 0.0
    ensures var edges := SnapshotOf(events, order, decay).edges;
            exists i :: 0 <= i < |edges| && edges[i].weight == 1.0
  {
    var t, latest, scored := TablesOf(events), LatestTime(events), ScoredEdges(events, order, decay);
    TablesValid(events);
    forall i | 0 <= i < |scored| ensures scored[i].raw >= 0.0 {
      ScoresNonNegative(t, latest, order, decay, i);
    }
    WeightsInBand(scored);
    var i :| 0 <= i < |scored| && EdgesOf(scored)[i].weight == 1.0;
    assert SnapshotOf(events, order, decay).edges[i].weight == 1.0;
  }

  lemma ScoredEdgesProper(events: seq<TickEvent>, order: set<string> -> seq<string>, decay: real -> real)
    requires IsOrder(order) && IsDecay(decay) && events != [] && !Collides(TablesOf(events))
    ensures var ids, scored := NodeTypes(TablesOf(events)).keys, ScoredEdges(events, order, decay);
            NoDup(ids) && forall i :: 0 <= i < |scored| ==>
              scored[i].src in ids && scored[i].dst in ids && scored[i].src != scored[i].dst
  {
    hide TablesOf, NodeTypes, RawEdges, Collides, IsOrder, IsDecay;
    var t, latest := TablesOf(events), LatestTime(events);
    var raw, scored, ids := RawEdges(t, latest, order), ScoredEdges(events, order, decay), NodeTypes(t).keys;
    TablesValid(events);
    NodeTypesFacts(t);
    SelfLoopIff(t, latest, order);
    forall i | 0 <= i < |scored|
      ensures scored[i].src in ids && scored[i].dst in ids && scored[i].src != scored[i].dst
    {
      assert raw[i] in raw;
      EdgesHaveNodes(t, latest, order, raw[i]);
    }
  }

  lemma ConnectivityLaw(events: seq<TickEvent>, order: set<string> -> seq<string>, decay: real -> real)
    requires IsOrder(order) && IsDecay(decay) && events != [] && !Collides(TablesOf(events))
    ensures var s, scored := SnapshotOf(events, order, decay), ScoredEdges(events, order, decay);
            forall i :: 0 <= i < |s.nodes| ==>
              s.nodes[i].connectivity == |Neighbours(scored, s.nodes[i].id)| as real
                                         / (if |s.nodes| > 1 then |s.nodes| - 1 else 1) as real
  {
    hide TablesOf, ScoredEdges, NodeTypes, Connectivity, SnapshotOf, Neighbours, IsOrder, IsDecay, Collides, NoDup;
    var s, scored, ids := SnapshotOf(events, order, decay), ScoredEdges(events, order, decay),
                          NodeTypes(TablesOf(events)).keys;
    NodesAre(events, order, decay);
    ScoredEdgesProper(events, order, decay);
    forall i | 0 <= i < |s.nodes|
      ensures s.nodes[i].connectivity == |Neighbours(scored, s.nodes[i].id)| as real
                                         / (if |s.nodes| > 1 then |s.nodes| - 1 else 1) as real
    {
      assert ids[i] in ids;
      ConnectivityIsExact(scored, ids, ids[i]);
    }
  }
}
