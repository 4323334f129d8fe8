/** What the decoders read out of real logs, in which every word of the payload may hold anything in range:
    the amounts, from the places the contracts' event declarations give them. */
module DecoderLaws {
  import opened Prelude
  import opened HexText
  import opened Abi
  import opened Events
  import opened Decoders
  import opened Replay
  import opened Router

  /** The non-indexed parameters of the event, as the contract declares them and the decoders read them. */
  function Declared(event: Event): seq<AbiType> {
    match event
    case Swap => [SInt(32), SInt(32), UInt(20), UInt(16), SInt(3)]
    case Mint => [Address, UInt(16), UInt(32), UInt(32)]
    case Burn => [UInt(16), UInt(32), UInt(32)]
    case Supply => [Address, UInt(32)]
    case Borrow => [Address, UInt(32), UInt(32), UInt(32)]
    case Withdraw => [UInt(32)]
    case Liquidation => [UInt(32), UInt(32), Address, Bool]
  }

  /** The parameters that are the event's two amounts; events of one asset have one. */
  function FirstAmount(event: Event): nat {
    match event
    case Swap => 0
    case Mint => 2
    case Burn => 1
    case Supply => 1
    case Borrow => 1
    case Withdraw => 0
    case Liquidation => 1
  }

  function SecondAmount(event: Event): Option<nat> {
    match event
    case Swap => Some(1)
    case Mint => Some(3)
    case Burn => Some(2)
    case Liquidation => Some(0)
    case _ => None
  }

  predicate OfUniswap(event: Event) { event in {Swap, Mint, Burn} }

  lemma {:induction false} EachFits(types: seq<AbiType>)
    requires forall k :: 0 <= k < |types| ==> FitsWord(types[k])
    ensures AllFit(types)
  {
    if types != [] {
      EachFits(types[1..]);
    }
  }

  lemma DeclaredFits(event: Event)
    ensures AllFit(Declared(event))
  {
    hide AllFit;
    EachFits(Declared(event));
  }

  /** On any log of the event the decoder of its protocol reads these two parameters, whatever the others hold
      and whatever follows, and the other protocol's decoder refuses it. */
  lemma DecodersReadRealLogs(event: Event, values: seq<int>, more: seq<Byte>)
    requires |values| == |Declared(event)| && AllInRange(Declared(event), values)
    ensures Encode(Declared(event), values).Some?
    ensures var data := Encode(Declared(event), values).value + more;
            var amounts := (values[FirstAmount(event)],
                            if SecondAmount(event).Some? then values[SecondAmount(event).value] else 0);
            && UniswapAmounts(event, data) == (if OfUniswap(event) then Some(amounts) else None)
            && AaveAmounts(event, data) == (if OfUniswap(event) then None else Some(amounts))
  {
    hide Encode, Decode, AllInRange;
    DeclaredFits(event);
    TupleEncodes(Declared(event), values);
    TupleRoundTrip(Declared(event), values, more);
  }

  // What the mock writes.

  /** How many of the event's parameters are indexed, and how many of these, the first ones, are assets. */
  function Indexed(event: Event): nat {
    if event == Swap then 2 else 3
  }

  function Assets(event: Event): nat {
    if OfUniswap(event) then 0 else if event == Liquidation then 2 else 1
  }

  /** A rendered row is a log of its own event and pool with the amounts and assets in their places; all other
      words are zeros, plain or as an address. */
  lemma RenderedLog(row: Row)
    requires Renderable(row) && row.event.Some?
    ensures BuildRawLog(row).Some? && DataBytes(BuildRawLog(row).value.data).Some?
    ensures var log, e := BuildRawLog(row).value, row.event.value;
            && log.topic0 == row.event && log.address == row.pool && log.transactionHash == row.txHash
            && |log.topics| == Indexed(e)
            && (forall k :: Assets(e) <= k < |log.topics| ==> log.topics[k] in {ZERO_WORD, AddrTopic(ZERO_ADDRESS)})
            && (Assets(e) > 0 ==> log.topics[0] == AddrTopic(row.token0))
            && (Assets(e) > 1 ==> log.topics[1] == AddrTopic(row.token1))
    ensures var e, data := row.event.value, DataBytes(BuildRawLog(row).value.data).value;
            var words := Decode(Declared(e), data);
            && words.Some? && |words.value| == |Declared(e)|
            && forall k :: 0 <= k < |Declared(e)| ==>
                 words.value[k] == if k == FirstAmount(e) then row.amount0.value
                                   else if SecondAmount(e) == Some(k) then row.amount1.value else 0
  {
    hide Decode, Encode, DataBytes, BytesToHex, Renderable, AddrTopic, Hex;
    DataRoundTrip(row);
    LogOfRow(row);
  }

  lemma LogOfRow(row: Row)
    requires BuildRawLog(row).Some?
    ensures var log := BuildRawLog(row).value;
            && log.topic0 == row.event && log.address == row.pool && log.transactionHash == row.txHash
            && log.topics == TopicsTail(row.event, row.token0, row.token1)
            && log.blockNumber == Hex(row.blockNumber) && log.logIndex == Hex(row.logIndex)
  {
    hide Encode, BytesToHex, Hex, TopicsTail;
  }
}
