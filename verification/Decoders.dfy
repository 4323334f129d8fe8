/** ingestion/decoders/uniswap_v3.py and aave_v3.py: a raw log back to a normalized event. An absent
    result is an exception of the decoder (unknown topic, missing field, malformed data). */
module Decoders {
  import opened Prelude
  import opened HexText
  import opened Abi
  import opened Events

  function SWAP_TYPES(): seq<AbiType> { [SInt(32), SInt(32), UInt(20), UInt(16), SInt(3)] }
  function MINT_TYPES(): seq<AbiType> { [Address, UInt(16), UInt(32), UInt(32)] }
  function BURN_TYPES(): seq<AbiType> { [UInt(16), UInt(32), UInt(32)] }
  function SUPPLY_TYPES(): seq<AbiType> { [Address, UInt(32)] }
  function BORROW_TYPES(): seq<AbiType> { [Address, UInt(32), UInt(32), UInt(32)] }
  function WITHDRAW_TYPES(): seq<AbiType> { [UInt(32)] }
  function LIQUIDATION_TYPES(): seq<AbiType> { [UInt(32), UInt(32), Address, Bool] }

  datatype PoolMeta = PoolMeta(token0: string, token1: string)

  function DataBytes(data: string): Option<seq<Byte>> {
    BytesFromHex(RemovePrefix0x(data))
  }

  /** The last 20 bytes of a topic, lower-cased. */
  function TopicToAddr(topic: string): Option<string> {
    var b := BytesFromHex(RemovePrefix0x(topic));
    if b.None? then None else Some("0x" + BytesToHex(LastN(b.value, 20)))
  }

  /** What one event's payload says: both amounts and, for Aave, both assets. */
  datatype Payload = Payload(amount0: int, amount1: int, token0: string, token1: string)

  function UniswapAmounts(event: Event, data: seq<Byte>): Option<(int, int)> {
    match event
    case Swap =>
      var d := Decode(SWAP_TYPES(), data);
      if d.None? then None else Some((d.value[0], d.value[1]))
    case Mint =>
      var d := Decode(MINT_TYPES(), data);
      if d.None? then None else Some((d.value[2], d.value[3]))
    case Burn =>
      var d := Decode(BURN_TYPES(), data);
      if d.None? then None else Some((d.value[1], d.value[2]))
    case _ => None
  }

  function AaveAmounts(event: Event, data: seq<Byte>): Option<(int, int)> {
    match event
    case Supply =>
      var d := Decode(SUPPLY_TYPES(), data);
      if d.None? then None else Some((d.value[1], 0))
    case Borrow =>
      var d := Decode(BORROW_TYPES(), data);
      if d.None? then None else Some((d.value[1], 0))
    case Withdraw =>
      var d := Decode(WITHDRAW_TYPES(), data);
      if d.None? then None else Some((d.value[0], 0))
    case Liquidation =>
      var d := Decode(LIQUIDATION_TYPES(), data);
      if d.None? then None else Some((d.value[1], d.value[0]))
    case _ => None
  }

  function AaveAssets(event: Event, topics: seq<string>): Option<(string, string)> {
    if |topics| < 1 then None
    else
      var t0 := TopicToAddr(topics[0]);
      if t0.None? then None
      else if event != Liquidation then Some((t0.value, ZERO_ADDRESS))
      else if |topics| < 2 then None
      else
        var t1 := TopicToAddr(topics[1]);
        if t1.None? then None else Some((t0.value, t1.value))
  }

  /** The fields every decoder reads the same way. */
  function MakeTick(log: Log, protocol: Protocol, event: Event, p: Payload, timestamp: int): Option<Tick> {
    var block, index := ToInt(log.blockNumber), ToInt(log.logIndex);
    if block.None? || index.None? then None
    else
      Some(Tick(block.value, timestamp, protocol, event, With0x(Lower(log.address)), p.token0, p.token1,
                p.amount0, p.amount1, With0x(log.transactionHash), index.value))
  }

  function DecodeUniswap(log: Log, meta: PoolMeta, timestamp: int): Option<Tick> {
    var data := DataBytes(log.data);
    if log.topic0.None? || data.None? then None
    else
      var amounts := UniswapAmounts(log.topic0.value, data.value);
      if amounts.None? then None
      else
        MakeTick(log, UniswapV3, log.topic0.value,
                 Payload(amounts.value.0, amounts.value.1, Lower(meta.token0), Lower(meta.token1)), timestamp)
  }

  function DecodeAave(log: Log, meta: PoolMeta, timestamp: int): Option<Tick> {
    var data := DataBytes(log.data);
    if log.topic0.None? || data.None? then None
    else
      var amounts := AaveAmounts(log.topic0.value, data.value);
      var assets := AaveAssets(log.topic0.value, log.topics);
      if amounts.None? || assets.None? then None
      else
        MakeTick(log, AaveV3, log.topic0.value,
                 Payload(amounts.value.0, amounts.value.1, assets.value.0, assets.value.1), timestamp)
  }
}
