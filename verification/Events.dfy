/** The records that travel through ingestion: fixture rows, raw logs and normalized events.

    Amounts are the integers that `int(text)` reads (`None` when it raises) and timestamps are Unix
    seconds. The Keccak `topic0` constants are distinct tags. */
module Events {
  import opened Prelude
  import opened HexText

  datatype Event = Swap | Mint | Burn | Supply | Borrow | Withdraw | Liquidation

  /** One fixture row; `event` is `None` for an event type nobody knows. */
  datatype Row = Row(
    blockNumber: int,
    timestamp: string,
    event: Option<Event>,
    pool: string,
    token0: string,
    token1: string,
    amount0: Option<int>,
    amount1: Option<int>,
    txHash: string,
    logIndex: int)

  /** An eth-style log: `topic0` is the event's signature, `topics` the indexed fields after it. */
  datatype Log = Log(
    address: string,
    topic0: Option<Event>,
    topics: seq<string>,
    data: string,
    blockNumber: string,
    transactionHash: string,
    logIndex: string)

  datatype Protocol = UniswapV3 | AaveV3 | OtherProtocol

  datatype Tick = Tick(
    blockNumber: int,
    timestamp: int,
    protocol: Protocol,
    event: Event,
    pool: string,
    token0: string,
    token1: string,
    amount0: int,
    amount1: int,
    txHash: string,
    logIndex: int)

  const ZERO_ADDRESS: string := "0x0000000000000000000000000000000000000000"
  const ZERO_WORD: string := "0x0000000000000000000000000000000000000000000000000000000000000000"
}
