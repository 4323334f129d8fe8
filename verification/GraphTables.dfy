/** First half of `build_graph` (engine/graph/builder.py): the events folded into volume, time and
    membership tables. Amounts, block times and block numbers are taken as parsed numbers. */
module GraphTables {
  import opened Prelude
  import opened Events
  import opened OrderedDict

  datatype TickEvent = TickEvent(
    protocol: string,
    pool: string,
    token0: string,
    token1: string,
    amount0: real,
    amount1: real,
    time: real,
    block: int)

  /** A pool and one of its tokens. */
  type Key = (string, string)

  datatype Tables = Tables(
    protocols: Dict<string, string>,
    volumes: Dict<Key, real>,
    latest: Dict<Key, real>,
    pools: Dict<string, set<string>>)

  const NO_TABLES: Tables := Tables(Empty(), Empty(), Empty(), Empty())

  function Abs(x: real): (r: real)
    ensures r >= 0.0 && (r == x || r == -x)
  {
    if x < 0.0 then -x else x
  }

  function Later(a: real, b: real): (r: real)
    ensures r >= a && r >= b && (r == a || r == b)
  {
    if a >= b then a else b
  }

  /** One token leg of an event; the zero address is not a token. */
  function AddLeg(t: Tables, pool: string, token: string, amount: real, time: real): Tables {
    if token == ZERO_ADDRESS then t
    else
      var key := (pool, token);
      t.(volumes := t.volumes.Put(key, t.volumes.Get(key, 0.0) + Abs(amount)),
         latest := t.latest.Put(key, Later(t.latest.Get(key, time), time)),
         pools := t.pools.Put(token, t.pools.Get(token, {}) + {pool}))
  }

  function AddEvent(t: Tables, e: TickEvent): Tables {
    AddLeg(AddLeg(t.(protocols := t.protocols.Put(e.pool, e.protocol)), e.pool, e.token0, e.amount0, e.time),
           e.pool, e.token1, e.amount1, e.time)
  }

  function TablesOf(events: seq<TickEvent>): Tables {
    if events == [] then NO_TABLES
    else AddEvent(TablesOf(events[..|events| - 1]), events[|events| - 1])
  }

  lemma TablesStep(events: seq<TickEvent>, i: nat)
    requires i < |events|
    ensures TablesOf(events[..i + 1]) == AddEvent(TablesOf(events[..i]), events[i])
  {
    assert events[..i + 1][..i] == events[..i];
  }

  lemma NoEvents()
    ensures TablesOf([]) == NO_TABLES
  {
  }

  method CollectTables(events: seq<TickEvent>) returns (t: Tables)
    ensures t == TablesOf(events)
  {
    hide TablesOf;
    NoEvents();
    var protocols: Dict<string, string> := Empty();
    var volumes: Dict<Key, real> := Empty();
    var latest: Dict<Key, real> := Empty();
    var pools: Dict<string, set<string>> := Empty();
    for i := 0 to |events|
      invariant Tables(protocols, volumes, latest, pools) == TablesOf(events[..i])
    {
      var e := events[i];
      TablesStep(events, i);
      protocols := protocols.Put(e.pool, e.protocol);
      ghost var start := Tables(protocols, volumes, latest, pools);
      var legs := [(e.token0, e.amount0), (e.token1, e.amount1)];
      for j := 0 to 2
        invariant Tables(protocols, volumes, latest, pools) ==
                  if j == 0 then start
                  else if j == 1 then AddLeg(start, e.pool, e.token0, e.amount0, e.time)
                  else AddLeg(AddLeg(start, e.pool, e.token0, e.amount0, e.time), e.pool, e.token1, e.amount1, e.time)
      {
        var (token, amount) := legs[j];
        if token != ZERO_ADDRESS {
          var key := (e.pool, token);
          volumes := volumes.Put(key, volumes.Get(key, 0.0) + Abs(amount));
          latest := latest.Put(key, Later(latest.Get(key, e.time), e.time));
          pools := pools.Put(token, pools.Get(token, {}) + {e.pool});
        }
      }
    }
    assert events[..|events|] == events;
    t := Tables(protocols, volumes, latest, pools);
  }

  // What the tables hold.

  function LegVolume(token: string, amount: real): real {
    if token == ZERO_ADDRESS then 0.0 else Abs(amount)
  }

  /** The total `|amount|` over the legs with a real token. */
  function TotalVolume(events: seq<TickEvent>): real {
    if events == [] then 0.0
    else
      var e := events[|events| - 1];
      TotalVolume(events[..|events| - 1]) + LegVolume(e.token0, e.amount0) + LegVolume(e.token1, e.amount1)
  }

  function Vol(t: Tables, k: Key): real {
    t.volumes.Get(k, 0.0)
  }

  /** A table as a function on all keys. */
  function ValuesOf(volumes: Dict<Key, real>): Key -> real {
    k => volumes.Get(k, 0.0)
  }

  function VolumeSum(volumes: Dict<Key, real>): real {
    SumOver(volumes.keys, ValuesOf(volumes))
  }

  ghost predicate Valid(t: Tables) {
    && t.protocols.Valid() && t.volumes.Valid() && t.latest.Valid() && t.pools.Valid()
    && Linked(t)
  }

  /** The tables speak of the same legs. */
  ghost predicate Linked(t: Tables) {
    && (forall k: Key :: k in t.volumes.vals <==> k in t.latest.vals)
    && (forall k: Key :: k in t.volumes.vals <==> IsMember(t, k.0, k.1))
    && (forall k: Key :: k in t.volumes.vals ==> k.0 in t.protocols.vals && t.volumes.vals[k] >= 0.0)
    && (forall token :: token in t.pools.vals ==> t.pools.vals[token] != {})
  }

  ghost predicate IsMember(t: Tables, pool: string, token: string) {
    token in t.pools.vals && pool in t.pools.vals[token]
  }

  lemma AddLegLinked(t: Tables, pool: string, token: string, amount: real, time: real)
    requires Linked(t) && pool in t.protocols.vals && token != ZERO_ADDRESS
    ensures Linked(AddLeg(t, pool, token, amount, time))
  {
    var t' := AddLeg(t, pool, token, amount, time);
    forall p, x ensures IsMember(t', p, x) <==> IsMember(t, p, x) || (p == pool && x == token) {
    }
    forall k: Key ensures k in t'.volumes.vals <==> IsMember(t', k.0, k.1) {
      assert k in t'.volumes.vals <==> k in t.volumes.vals || k == (pool, token);
    }
  }

  lemma AddLegValid(t: Tables, pool: string, token: string, amount: real, time: real)
    requires Valid(t) && pool in t.protocols.vals
    ensures Valid(AddLeg(t, pool, token, amount, time))
  {
    if token != ZERO_ADDRESS {
      t.volumes.PutValid((pool, token), Vol(t, (pool, token)) + Abs(amount));
      t.latest.PutValid((pool, token), Later(t.latest.Get((pool, token), time), time));
      t.pools.PutValid(token, t.pools.Get(token, {}) + {pool});
      AddLegLinked(t, pool, token, amount, time);
    }
  }

  lemma AddEventValid(t: Tables, e: TickEvent)
    requires Valid(t)
    ensures Valid(AddEvent(t, e))
  {
    var t1 := t.(protocols := t.protocols.Put(e.pool, e.protocol));
    t.protocols.PutValid(e.pool, e.protocol);
    assert Valid(t1);
    AddLegValid(t1, e.pool, e.token0, e.amount0, e.time);
    AddLegValid(AddLeg(t1, e.pool, e.token0, e.amount0, e.time), e.pool, e.token1, e.amount1, e.time);
  }

  lemma {:induction false} TablesValid(events: seq<TickEvent>)
    ensures Valid(TablesOf(events))
  {
    if events != [] {
      TablesValid(events[..|events| - 1]);
      AddEventValid(TablesOf(events[..|events| - 1]), events[|events| - 1]);
    }
  }

  lemma PutOldSum(d: Dict<Key, real>, key: Key, v: real, i: nat)
    requires d.Valid() && key in d.vals && i < |d.keys| && d.keys[i] == key
    ensures SumOver(d.keys, ValuesOf(d.Put(key, v))) == SumOver(d.keys, ValuesOf(d)) - d.Get(key, 0.0) + v
  {
    hide SumOver;
    SumOverChange(d.keys, i, ValuesOf(d), ValuesOf(d.Put(key, v)));
  }

  lemma PutNewSum(d: Dict<Key, real>, key: Key, v: real)
    requires d.Valid() && key !in d.vals
    ensures SumOver(d.keys + [key], ValuesOf(d.Put(key, v))) == SumOver(d.keys, ValuesOf(d)) + v
  {
    hide SumOver;
    SumOverPush(d.keys, key, ValuesOf(d.Put(key, v)));
    SumOverSame(d.keys, ValuesOf(d), ValuesOf(d.Put(key, v)));
  }

  /** Putting a value under a key changes the sum of the values by the change at that key. */
  lemma PutSum(d: Dict<Key, real>, key: Key, v: real)
    requires d.Valid()
    ensures VolumeSum(d.Put(key, v)) == VolumeSum(d) - d.Get(key, 0.0) + v
  {
    hide SumOver, ValuesOf;
    if key in d.vals {
      assert key in d.keys;
      var i :| 0 <= i < |d.keys| && d.keys[i] == key;
      PutOldSum(d, key, v, i);
    } else {
      PutNewSum(d, key, v);
    }
  }

  lemma AddLegVolume(t: Tables, pool: string, token: string, amount: real, time: real)
    requires t.volumes.Valid()
    ensures VolumeSum(AddLeg(t, pool, token, amount, time).volumes) == VolumeSum(t.volumes) + LegVolume(token, amount)
    ensures AddLeg(t, pool, token, amount, time).volumes.Valid()
  {
    hide VolumeSum, SumOver;
    if token != ZERO_ADDRESS {
      var v := t.volumes.Get((pool, token), 0.0) + Abs(amount);
      PutSum(t.volumes, (pool, token), v);
      t.volumes.PutValid((pool, token), v);
    }
  }

  lemma AddEventVolume(t: Tables, e: TickEvent)
    requires t.volumes.Valid()
    ensures VolumeSum(AddEvent(t, e).volumes)
         == VolumeSum(t.volumes) + LegVolume(e.token0, e.amount0) + LegVolume(e.token1, e.amount1)
  {
    var t1 := t.(protocols := t.protocols.Put(e.pool, e.protocol));
    AddLegVolume(t1, e.pool, e.token0, e.amount0, e.time);
    AddLegVolume(AddLeg(t1, e.pool, e.token0, e.amount0, e.time), e.pool, e.token1, e.amount1, e.time);
  }

  /** Nothing is lost or counted twice in the volume table. */
  lemma {:induction false} VolumesAddUp(events: seq<TickEvent>)
    ensures VolumeSum(TablesOf(events).volumes) == TotalVolume(events)
  {
    if events != [] {
      VolumesAddUp(events[..|events| - 1]);
      TablesValid(events[..|events| - 1]);
      AddEventVolume(TablesOf(events[..|events| - 1]), events[|events| - 1]);
    }
  }

  // Independent reading of single entries.

  predicate TouchesLeg(k: Key, pool: string, token: string) {
    k == (pool, token) && token != ZERO_ADDRESS
  }

  /** What flowed between a pool and a token, over all events. */
  function FlowAt(events: seq<TickEvent>, k: Key): real {
    if events == [] then 0.0
    else
      var e := events[|events| - 1];
      FlowAt(events[..|events| - 1], k)
      + (if TouchesLeg(k, e.pool, e.token0) then Abs(e.amount0) else 0.0)
      + (if TouchesLeg(k, e.pool, e.token1) then Abs(e.amount1) else 0.0)
  }

  /** When a pool and a token last met. */
  function LastAt(events: seq<TickEvent>, k: Key): Option<real> {
    if events == [] then None
    else
      var e := events[|events| - 1];
      var before := LastAt(events[..|events| - 1], k);
      if !TouchesLeg(k, e.pool, e.token0) && !TouchesLeg(k, e.pool, e.token1) then before
      else Some(if before.Some? then Later(before.value, e.time) else e.time)
  }

  function TimeAt(t: Tables, k: Key): Option<real> {
    if k in t.latest.vals then Some(t.latest.vals[k]) else None
  }

  lemma AddLegAt(t: Tables, pool: string, token: string, amount: real, time: real, k: Key)
    ensures Vol(AddLeg(t, pool, token, amount, time), k)
         == Vol(t, k) + if TouchesLeg(k, pool, token) then Abs(amount) else 0.0
    ensures TimeAt(AddLeg(t, pool, token, amount, time), k)
         == if !TouchesLeg(k, pool, token) then TimeAt(t, k)
            else Some(if TimeAt(t, k).Some? then Later(TimeAt(t, k).value, time) else time)
  {
  }

  /** Every table entry is the flow, and the last meeting, of its own pool and token. */
  lemma {:induction false} TablesAt(events: seq<TickEvent>, k: Key)
    ensures Vol(TablesOf(events), k) == FlowAt(events, k)
    ensures TimeAt(TablesOf(events), k) == LastAt(events, k)
  {
    if events != [] {
      var e := events[|events| - 1];
      var t := TablesOf(events[..|events| - 1]);
      var t1 := t.(protocols := t.protocols.Put(e.pool, e.protocol));
      TablesAt(events[..|events| - 1], k);
      AddLegAt(t1, e.pool, e.token0, e.amount0, e.time, k);
      AddLegAt(AddLeg(t1, e.pool, e.token0, e.amount0, e.time), e.pool, e.token1, e.amount1, e.time, k);
    }
  }
}
