/** Second half of `build_graph` (engine/graph/builder.py), with the runtime checks of
    `validate_graph_snapshot` (core/schemas). The decay of a volume with age and the ordering of a
    pool set are parameters. */
module GraphBuilder {
  import opened Prelude
  import opened HexText
  import opened OrderedDict
  import opened GraphTables

  datatype NodeKind = ProtocolNode | PoolNode | TokenNode
  datatype EdgeKind = LiquidityFlow | BorrowPosition | SharedCollateral

  datatype RawEdge = RawEdge(src: string, dst: string, kind: EdgeKind, volume: real, time: real)
  datatype Scored = Scored(src: string, dst: string, kind: EdgeKind, raw: real)

  datatype Node = Node(id: string, kind: NodeKind, volume: real, connectivity: real)
  datatype Edge = Edge(src: string, dst: string, weight: real, kind: EdgeKind)
  datatype Snapshot = Snapshot(start: int, end: int, nodes: seq<Node>, edges: seq<Edge>)

  datatype BuildError = NoEvents | BadBlockRange | DuplicateNode | DanglingEdge | SelfLoop | OutOfBand

  function ProtocolId(protocol: string): string { "protocol:" + protocol }
  function PoolId(protocol: string, address: string): string { "pool:" + protocol + ":" + address }
  function TokenId(address: string): string { "token:" + address }

  function Corr(kind: EdgeKind): real {
    match kind
    case LiquidityFlow => 1.0
    case BorrowPosition => 0.7
    case SharedCollateral => 0.5
  }

  const UNISWAP: string := "uniswap_v3"

  function ProtocolOf(t: Tables, pool: string): string {
    t.protocols.Get(pool, "")
  }

  function PoolNodeId(t: Tables, pool: string): string {
    PoolId(ProtocolOf(t, pool), pool)
  }

  function TimeOf(t: Tables, k: Key): real {
    t.latest.Get(k, 0.0)
  }

  // The raw edges.

  function LegEdge(t: Tables, k: Key): RawEdge {
    RawEdge(PoolNodeId(t, k.0), TokenId(k.1),
            if ProtocolOf(t, k.0) == UNISWAP then LiquidityFlow else BorrowPosition, Vol(t, k), TimeOf(t, k))
  }

  function PoolVolume(t: Tables, keys: seq<Key>, pool: string): real {
    SumOver(keys, (k: Key) => if k.0 == pool then Vol(t, k) else 0.0)
  }

  /** The latest time among the pool's keys, `default` when it has none. */
  function PoolTime(t: Tables, keys: seq<Key>, pool: string, default: real): real {
    var times := PoolTimes(t, keys, pool);
    if times == [] then default else MaxOfTimes(times)
  }

  function PoolTimes(t: Tables, keys: seq<Key>, pool: string): seq<real> {
    if keys == [] then []
    else
      var k := keys[|keys| - 1];
      PoolTimes(t, keys[..|keys| - 1], pool) + if k.0 == pool then [TimeOf(t, k)] else []
  }

  function MaxOfTimes(times: seq<real>): real
    requires times != []
  {
    if |times| == 1 then times[0] else Later(MaxOfTimes(times[..|times| - 1]), times[|times| - 1])
  }

  function ProtocolEdge(t: Tables, pool: string, latest: real): RawEdge {
    RawEdge(ProtocolId(ProtocolOf(t, pool)), PoolNodeId(t, pool), LiquidityFlow,
            PoolVolume(t, t.volumes.keys, pool), PoolTime(t, t.volumes.keys, pool, latest))
  }

  function SharedEdge(t: Tables, token: string, a: string, b: string): RawEdge {
    var va, vb := Vol(t, (a, token)), Vol(t, (b, token));
    RawEdge(PoolNodeId(t, a), PoolNodeId(t, b), SharedCollateral, if vb < va then vb else va,
            Later(TimeOf(t, (a, token)), TimeOf(t, (b, token))))
  }

  function EdgesOfLegs(t: Tables, keys: seq<Key>): seq<RawEdge> {
    seq(|keys|, i requires 0 <= i < |keys| => LegEdge(t, keys[i]))
  }

  function EdgesOfProtocols(t: Tables, pools: seq<string>, latest: real): seq<RawEdge> {
    seq(|pools|, i requires 0 <= i < |pools| => ProtocolEdge(t, pools[i], latest))
  }

  /** The pairs `(ordered[i], ordered[j])` with `i < j`, for the first `n` values of `i`. */
  function EdgesOfPairs(t: Tables, token: string, ordered: seq<string>, n: nat): seq<RawEdge>
    requires n <= |ordered|
  {
    if n == 0 then [] else EdgesOfPairs(t, token, ordered, n - 1) + EdgesOfRow(t, token, ordered, n - 1, |ordered|)
  }

  function EdgesOfRow(t: Tables, token: string, ordered: seq<string>, i: nat, m: nat): seq<RawEdge>
    requires i < m <= |ordered|
  {
    if m == i + 1 then []
    else EdgesOfRow(t, token, ordered, i, m - 1) + [SharedEdge(t, token, ordered[i], ordered[m - 1])]
  }

  function EdgesOfTokens(t: Tables, tokens: seq<string>, order: set<string> -> seq<string>): seq<RawEdge> {
    if tokens == [] then []
    else
      var token := tokens[|tokens| - 1];
      var pools := t.pools.Get(token, {});
      EdgesOfTokens(t, tokens[..|tokens| - 1], order)
      + if |pools| < 2 then [] else EdgesOfPairs(t, token, order(pools), |order(pools)|)
  }

  function RawEdges(t: Tables, latest: real, order: set<string> -> seq<string>): seq<RawEdge> {
    EdgesOfLegs(t, t.volumes.keys) + EdgesOfProtocols(t, t.protocols.keys, latest)
    + EdgesOfTokens(t, t.pools.keys, order)
  }

  method CollectPoolEdges(t: Tables, latest: real) returns (edges: seq<RawEdge>)
    ensures edges == EdgesOfLegs(t, t.volumes.keys) + EdgesOfProtocols(t, t.protocols.keys, latest)
  {
    edges := [];
    for i := 0 to |t.volumes.keys|
      invariant edges == EdgesOfLegs(t, t.volumes.keys)[..i]
    {
      edges := edges + [LegEdge(t, t.volumes.keys[i])];
    }
    ghost var legs := edges;
    for i := 0 to |t.protocols.keys|
      invariant edges == legs + EdgesOfProtocols(t, t.protocols.keys, latest)[..i]
    {
      edges := edges + [ProtocolEdge(t, t.protocols.keys[i], latest)];
    }
  }

  method CollectPairs(t: Tables, token: string, ordered: seq<string>) returns (edges: seq<RawEdge>)
    ensures edges == EdgesOfPairs(t, token, ordered, |ordered|)
  {
    edges := [];
    for i := 0 to |ordered|
      invariant edges == EdgesOfPairs(t, token, ordered, i)
    {
      ghost var before := edges;
      assert before + [] == before;
      for j := i + 1 to |ordered|
        invariant edges == before + EdgesOfRow(t, token, ordered, i, j)
      {
        edges := edges + [SharedEdge(t, token, ordered[i], ordered[j])];
      }
    }
  }

  method CollectShared(t: Tables, order: set<string> -> seq<string>) returns (edges: seq<RawEdge>)
    ensures edges == EdgesOfTokens(t, t.pools.keys, order)
  {
    edges := [];
    var tokens := t.pools.keys;
    for n := 0 to |tokens|
      invariant edges == EdgesOfTokens(t, tokens[..n], order)
    {
      assert tokens[..n + 1][..n] == tokens[..n];
      var pools := t.pools.Get(tokens[n], {});
      if |pools| < 2 {
        assert edges + [] == edges;
        continue;
      }
      var pairs := CollectPairs(t, tokens[n], order(pools));
      edges := edges + pairs;
    }
    assert tokens[..|tokens|] == tokens;
  }

  method CollectEdges(t: Tables, latest: real, order: set<string> -> seq<string>) returns (edges: seq<RawEdge>)
    ensures edges == RawEdges(t, latest, order)
  {
    edges := CollectPoolEdges(t, latest);
    var shared := CollectShared(t, order);
    edges := edges + shared;
  }

  // Scores and weights.

  function Score(e: RawEdge, latest: real, decay: real -> real): Scored {
    Scored(e.src, e.dst, e.kind, e.volume * decay(latest - e.time) * Corr(e.kind))
  }

  function Scores(edges: seq<RawEdge>, latest: real, decay: real -> real): seq<Scored> {
    seq(|edges|, i requires 0 <= i < |edges| => Score(edges[i], latest, decay))
  }

  function MaxRaw(scored: seq<Scored>): real {
    if scored == [] then 0.0 else Later(MaxRaw(scored[..|scored| - 1]), scored[|scored| - 1].raw)
  }

  method ScoreEdges(edges: seq<RawEdge>, latest: real, decay: real -> real)
    returns (scored: seq<Scored>, maxRaw: real)
    ensures scored == Scores(edges, latest, decay) && maxRaw == MaxRaw(scored)
  {
    scored, maxRaw := [], 0.0;
    for i := 0 to |edges|
      invariant scored == Scores(edges, latest, decay)[..i] && maxRaw == MaxRaw(scored)
    {
      var s := Score(edges[i], latest, decay);
      assert (scored + [s])[..|scored|] == scored;
      scored := scored + [s];
      maxRaw := Later(maxRaw, s.raw);
    }
  }

  function Weigh(s: Scored, maxRaw: real): Edge {
    Edge(s.src, s.dst, if maxRaw > 0.0 then s.raw / maxRaw else 0.0, s.kind)
  }

  // Nodes.

  function PoolNodes(t: Tables, pools: seq<string>): Dict<string, NodeKind> {
    if pools == [] then Empty()
    else
      var pool := pools[|pools| - 1];
      PoolNodes(t, pools[..|pools| - 1]).Put(ProtocolId(ProtocolOf(t, pool)), ProtocolNode)
      .Put(PoolNodeId(t, pool), PoolNode)
  }

  function TokenNodes(d: Dict<string, NodeKind>, tokens: seq<string>): Dict<string, NodeKind> {
    if tokens == [] then d
    else TokenNodes(d, tokens[..|tokens| - 1]).Put(TokenId(tokens[|tokens| - 1]), TokenNode)
  }

  function NodeTypes(t: Tables): Dict<string, NodeKind> {
    TokenNodes(PoolNodes(t, t.protocols.keys), t.pools.keys)
  }

  method CollectNodes(t: Tables) returns (nodeTypes: Dict<string, NodeKind>)
    ensures nodeTypes == NodeTypes(t)
  {
    nodeTypes := Empty();
    var pools, tokens := t.protocols.keys, t.pools.keys;
    for i := 0 to |pools|
      invariant nodeTypes == PoolNodes(t, pools[..i])
    {
      assert pools[..i + 1][..i] == pools[..i];
      nodeTypes := nodeTypes.Put(ProtocolId(ProtocolOf(t, pools[i])), ProtocolNode);
      nodeTypes := nodeTypes.Put(PoolNodeId(t, pools[i]), PoolNode);
    }
    assert pools[..|pools|] == pools;
    for i := 0 to |tokens|
      invariant nodeTypes == TokenNodes(PoolNodes(t, pools), tokens[..i])
    {
      assert tokens[..i + 1][..i] == tokens[..i];
      nodeTypes := nodeTypes.Put(TokenId(tokens[i]), TokenNode);
    }
    assert tokens[..|tokens|] == tokens;
  }

  /** The volume through a node: each leg counts for its token, its pool and its protocol. */
  function NodeVolume(t: Tables, keys: seq<Key>, id: string): real {
    SumOver(keys, k => LegShare(t, k, id))
  }

  function LegShare(t: Tables, k: Key, id: string): real {
    (if TokenId(k.1) == id then Vol(t, k) else 0.0)
    + (if PoolNodeId(t, k.0) == id then Vol(t, k) else 0.0)
    + (if ProtocolId(ProtocolOf(t, k.0)) == id then Vol(t, k) else 0.0)
  }

  function At(m: map<string, real>, id: string): real {
    if id in m then m[id] else 0.0
  }

  method CollectVolumes(t: Tables) returns (m: map<string, real>)
    ensures forall id :: At(m, id) == NodeVolume(t, t.volumes.keys, id)
  {
    m := map[];
    var keys := t.volumes.keys;
    for i := 0 to |keys|
      invariant forall id :: At(m, id) == NodeVolume(t, keys[..i], id)
    {
      var k := keys[i];
      var v := Vol(t, k);
      ghost var was := m;
      assert keys[..i + 1][..i] == keys[..i];
      m := m[TokenId(k.1) := At(m, TokenId(k.1)) + v];
      m := m[PoolNodeId(t, k.0) := At(m, PoolNodeId(t, k.0)) + v];
      m := m[ProtocolId(ProtocolOf(t, k.0)) := At(m, ProtocolId(ProtocolOf(t, k.0))) + v];
      forall id ensures At(m, id) == NodeVolume(t, keys[..i + 1], id) {
        assert At(m, id) == At(was, id) + LegShare(t, k, id);
      }
    }
    assert keys[..|keys|] == keys;
  }

  function Neighbours(edges: seq<Scored>, id: string): set<string> {
    if edges == [] then {}
    else
      var e := edges[|edges| - 1];
      Neighbours(edges[..|edges| - 1], id)
      + (if e.src == id then {e.dst} else {}) + (if e.dst == id then {e.src} else {})
  }

  /** Degree in a simple undirected graph; a self-loop counts twice. */
  function Degree(edges: seq<Scored>, id: string): nat {
    |Neighbours(edges, id)| + if id in Neighbours(edges, id) then 1 else 0
  }

  function Clamp01(x: real): real {
    if x < 0.0 then 0.0 else if x > 1.0 then 1.0 else x
  }

  function Connectivity(edges: seq<Scored>, id: string, n: nat): real {
    Clamp01(Degree(edges, id) as real / (if n > 1 then n - 1 else 1) as real)
  }

  // The snapshot and its checks.

  function LatestTime(events: seq<TickEvent>): real
    requires events != []
  {
    if |events| == 1 then events[0].time else Later(LatestTime(events[..|events| - 1]), events[|events| - 1].time)
  }

  function FirstBlock(events: seq<TickEvent>): int
    requires events != []
  {
    if |events| == 1 then events[0].block else Min(FirstBlock(events[..|events| - 1]), events[|events| - 1].block)
  }

  function LastBlock(events: seq<TickEvent>): int
    requires events != []
  {
    if |events| == 1 then events[0].block else Max(LastBlock(events[..|events| - 1]), events[|events| - 1].block)
  }

  function EdgeError(ids: set<string>, edges: seq<Edge>): Option<BuildError> {
    if edges == [] then None
    else if edges[0].src !in ids || edges[0].dst !in ids then Some(DanglingEdge)
    else if edges[0].src == edges[0].dst then Some(SelfLoop)
    else EdgeError(ids, edges[1..])
  }

  predicate InBand(x: real) { 0.0 <= x <= 1.0 }

  function Ids(nodes: seq<Node>): set<string> {
    set i | 0 <= i < |nodes| :: nodes[i].id
  }

  const MAX_ID: nat := 128

  predicate IdFits(id: string) { 1 <= |id| <= MAX_ID }

  /** `validate_graph_snapshot`: the schema's lengths and numeric bands, then the runtime invariants. */
  function Validate(s: Snapshot): Option<BuildError> {
    if s.nodes == [] || s.start < 0 || s.end < 0
       || (exists i :: 0 <= i < |s.nodes| && !(s.nodes[i].volume >= 0.0 && InBand(s.nodes[i].connectivity)))
       || (exists i :: 0 <= i < |s.edges| && !InBand(s.edges[i].weight))
       || (exists i :: 0 <= i < |s.nodes| && !IdFits(s.nodes[i].id))
       || (exists i :: 0 <= i < |s.edges| && !(IdFits(s.edges[i].src) && IdFits(s.edges[i].dst)))
    then Some(OutOfBand)
    else if s.end < s.start then Some(BadBlockRange)
    else if exists i, j :: 0 <= i < j < |s.nodes| && s.nodes[i].id == s.nodes[j].id then Some(DuplicateNode)
    else EdgeError(Ids(s.nodes), s.edges)
  }

  function NodesOf(t: Tables, types: Dict<string, NodeKind>, scored: seq<Scored>): seq<Node> {
    seq(|types.keys|, i requires 0 <= i < |types.keys| =>
      var id := types.keys[i];
      Node(id, types.Get(id, TokenNode), NodeVolume(t, t.volumes.keys, id), Connectivity(scored, id, |types.keys|)))
  }

  function EdgesOf(scored: seq<Scored>): seq<Edge> {
    seq(|scored|, i requires 0 <= i < |scored| => Weigh(scored[i], MaxRaw(scored)))
  }

  function ScoredEdges(events: seq<TickEvent>, order: set<string> -> seq<string>, decay: real -> real): seq<Scored>
    requires events != []
  {
    var latest := LatestTime(events);
    Scores(RawEdges(TablesOf(events), latest, order), latest, decay)
  }

  function SnapshotOf(events: seq<TickEvent>, order: set<string> -> seq<string>, decay: real -> real): Snapshot
    requires events != []
  {
    var t, scored := TablesOf(events), ScoredEdges(events, order, decay);
    Snapshot(FirstBlock(events), LastBlock(events), NodesOf(t, NodeTypes(t), scored), EdgesOf(scored))
  }

  const UUID_LENGTH: nat := 36

  predicate IsDash(i: nat) { i == 8 || i == 13 || i == 18 || i == 23 }

  /** The schema's pattern for a snapshot id: a version 4 UUID. */
  predicate IsUuidV4(s: string) {
    |s| == UUID_LENGTH && s[14] == '4' && s[19] in "89abAB" &&
    forall i :: 0 <= i < UUID_LENGTH ==> if IsDash(i) then s[i] == '-' else IsHexDigit(s[i])
  }

  /** An id that is given must match; without one, or with an empty one, a fresh UUID is taken. */
  predicate SnapshotIdFits(snapshotId: Option<string>) {
    snapshotId.None? || snapshotId.value == "" || IsUuidV4(snapshotId.value)
  }

  /** What `build_graph` returns or raises. */
  function Build(events: seq<TickEvent>, snapshotId: Option<string>, order: set<string> -> seq<string>,
                 decay: real -> real): Result<Snapshot, BuildError>
  {
    if events == [] then Err(NoEvents)
    else if !SnapshotIdFits(snapshotId) then Err(OutOfBand)
    else
      var s := SnapshotOf(events, order, decay);
      match Validate(s)
      case Some(e) => Err(e)
      case None => Ok(s)
  }

  method CollectRange(events: seq<TickEvent>) returns (latest: real, first: int, last: int)
    requires events != []
    ensures latest == LatestTime(events) && first == FirstBlock(events) && last == LastBlock(events)
  {
    latest, first, last := events[0].time, events[0].block, events[0].block;
    for i := 1 to |events|
      invariant latest == LatestTime(events[..i]) && first == FirstBlock(events[..i]) && last == LastBlock(events[..i])
    {
      assert events[..i + 1][..i] == events[..i];
      latest := Later(latest, events[i].time);
      first, last := Min(first, events[i].block), Max(last, events[i].block);
    }
    assert events[..|events|] == events;
  }

  method NodeList(t: Tables, types: Dict<string, NodeKind>, scored: seq<Scored>) returns (nodes: seq<Node>)
    ensures nodes == NodesOf(t, types, scored)
  {
    var volumes := CollectVolumes(t);
    nodes := [];
    for i := 0 to |types.keys|
      invariant nodes == NodesOf(t, types, scored)[..i]
    {
      var id := types.keys[i];
      var connectivity := Connectivity(scored, id, |types.keys|);
      nodes := nodes + [Node(id, types.Get(id, TokenNode), At(volumes, id), connectivity)];
    }
  }

  method EdgeList(scored: seq<Scored>, maxRaw: real) returns (edges: seq<Edge>)
    requires maxRaw == MaxRaw(scored)
    ensures edges == EdgesOf(scored)
  {
    edges := [];
    for i := 0 to |scored|
      invariant edges == EdgesOf(scored)[..i]
    {
      edges := edges + [Weigh(scored[i], maxRaw)];
    }
  }

  method BuildGraph(events: seq<TickEvent>, snapshotId: Option<string>, order: set<string> -> seq<string>,
                    decay: real -> real) returns (r: Result<Snapshot, BuildError>)
    ensures r == Build(events, snapshotId, order, decay)
  {
    if events == [] {
      return Err(NoEvents);
    }
    var latest, first, last := CollectRange(events);
    var t := CollectTables(events);
    var raw := CollectEdges(t, latest, order);
    var scored, maxRaw := ScoreEdges(raw, latest, decay);
    var types := CollectNodes(t);
    var nodes := NodeList(t, types, scored);
    var edges := EdgeList(scored, maxRaw);
    if !SnapshotIdFits(snapshotId) {
      return Err(OutOfBand);
    }
    var snapshot := Snapshot(first, last, nodes, edges);
    match Validate(snapshot)
    case Some(e) => r := Err(e);
    case None => r := Ok(snapshot);
  }
}
